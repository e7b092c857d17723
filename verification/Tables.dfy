/** The database rows the controller works on, and the queries of app/repositories/task.py. */
module Tables {
  import opened Wrappers

  /** yg_user_task.send_flag, "1" to "7". */
  datatype SendFlag = Created | Executing | Completed | ExecFailed | Sent | SendFailed | Cancelled

  /** yg_user_task.task_type, "1" to "4". */
  datatype TaskType = Assigned | Unassigned | Multi | CallDevice

  /** yg_user_task.pick_place_state, "0" to "2". */
  datatype PickPlace = NoAction | Picked | Placed

  /** yg_storage.site_status, "0" to "3". */
  datatype SiteStatus = Empty | Goods | Outgoing | Incoming

  /** yg_storage.site_type: "1" a single storage, "2" a column. */
  datatype SiteType = Single | Column

  /** yg_task_temp_site.site_type: "1" start, "2" end. */
  datatype Role = StartRole | EndRole

  datatype Storage = Storage(siteStatus: SiteStatus, siteType: SiteType, isEnabled: bool, height: int)

  datatype UserTask = UserTask(
    deviceImei: Option<nat>, sendFlag: SendFlag, taskType: TaskType, pickPlace: PickPlace,
    startSite: Option<nat>, startHandel: string, startHeight: int,
    endSite: Option<nat>, endHandel: string, endHeight: int,
    templateId: Option<nat>, wayPoints: seq<WayPoint>)

  /** An entry of the JSON list in way_points. */
  datatype WayPoint = WayPoint(siteCode: int, siteHandel: string, storageHeight: int)

  /** run_status: "0" running, "1" not running. */
  datatype Template = Template(runStatus: string)

  datatype TempSite = TempSite(templateId: nat, siteCode: nat, role: Role, orderIndex: int)

  datatype TempDevice = TempDevice(templateId: nat, deviceImei: nat)

  /** Tables keyed by what identifies a row: tasks by user_task_id, storages by site_code. */
  datatype Rows = Rows(
    storages: map<nat, Storage>,
    tasks: map<nat, UserTask>,
    templates: map<nat, Template>,
    tempSites: seq<TempSite>,
    tempDevices: seq<TempDevice>,
    sequence: nat)

  /** The open database session that every service call is handed. */
  class Session {
    var rows: Rows

    constructor (rows: Rows)
      ensures this.rows == rows
    {
      this.rows := rows;
    }
  }

  predicate Active(t: UserTask) {
    t.sendFlag == Created || t.sendFlag == Executing
  }

  /** `find_site_task`: the unfinished tasks that start or end at a site. */
  function FindSiteTask(db: Rows, code: nat): set<nat> {
    set id | id in db.tasks && Active(db.tasks[id]) &&
             (db.tasks[id].startSite == Some(code) || db.tasks[id].endSite == Some(code))
  }

  /** `select_run_task_temp_by_site`: one entry per matching template site, in row order. */
  function SelectRunTaskTempBySite(db: Rows, code: nat, role: Role, except: Option<nat>): seq<nat> {
    RunningAt(db.templates, db.tempSites, code, role, except)
  }

  predicate RunsAt(templates: map<nat, Template>, s: TempSite, code: nat, role: Role, except: Option<nat>) {
    s.siteCode == code && s.role == role && s.templateId in templates && templates[s.templateId].runStatus == "0"
    && except != Some(s.templateId)
  }

  function RunningAt(templates: map<nat, Template>, sites: seq<TempSite>, code: nat, role: Role, except: Option<nat>)
    : (ids: seq<nat>)
    ensures forall id | id in ids ::
              exists s :: s in sites && s.templateId == id && RunsAt(templates, s, code, role, except)
    ensures forall s | s in sites && RunsAt(templates, s, code, role, except) :: s.templateId in ids
  {
    if sites == [] then []
    else
      var s := sites[0];
      (if RunsAt(templates, s, code, role, except) then [s.templateId] else [])
      + RunningAt(templates, sites[1..], code, role, except)
  }

  predicate Fits(db: Rows, s: TempSite, templateId: nat, role: Role, status: SiteStatus) {
    s.templateId == templateId && s.role == role && s.siteCode in db.storages
    && db.storages[s.siteCode].siteStatus == status
  }

  /** `find_storage`: the template's storage of that role and status that comes first by order_index. */
  function FindStorage(db: Rows, templateId: nat, role: Role, status: SiteStatus): (r: Option<nat>)
    ensures r.Some? ==> exists s :: s in db.tempSites && s.siteCode == r.value && Fits(db, s, templateId, role, status)
                                    && forall o | o in db.tempSites && Fits(db, o, templateId, role, status) ::
                                         s.orderIndex <= o.orderIndex
    ensures r.None? ==> forall s | s in db.tempSites :: !Fits(db, s, templateId, role, status)
  {
    var first := FirstFit(db, db.tempSites, templateId, role, status);
    if first.None? then None else Some(first.value.siteCode)
  }

  function FirstFit(db: Rows, sites: seq<TempSite>, templateId: nat, role: Role, status: SiteStatus)
    : (r: Option<TempSite>)
    ensures r.Some? ==> r.value in sites && Fits(db, r.value, templateId, role, status)
                        && forall o | o in sites && Fits(db, o, templateId, role, status) ::
                             r.value.orderIndex <= o.orderIndex
    ensures r.None? ==> forall s | s in sites :: !Fits(db, s, templateId, role, status)
  {
    if sites == [] then None
    else
      var s, later := sites[0], FirstFit(db, sites[1..], templateId, role, status);
      if Fits(db, s, templateId, role, status) && (later.None? || s.orderIndex <= later.value.orderIndex) then Some(s)
      else later
  }

  /** The devices registered for a template. */
  function DevicesOf(devices: seq<TempDevice>, templateId: nat): (r: seq<nat>)
    ensures forall d | d in r :: TempDevice(templateId, d) in devices
    ensures forall d | d in devices && d.templateId == templateId :: d.deviceImei in r
  {
    if devices == [] then []
    else
      (if devices[0].templateId == templateId then [devices[0].deviceImei] else [])
      + DevicesOf(devices[1..], templateId)
  }

  // ---------- Ordered selections of waiting tasks ----------

  ghost predicate IsLeast(s: set<nat>, m: nat) {
    m in s && forall x | x in s :: m <= x
  }

  lemma {:induction false} LeastExists(s: set<nat>)
    requires s != {}
    ensures exists m :: IsLeast(s, m)
  {
    var x :| x in s;
    var rest := s - {x};
    assert s == rest + {x};
    if rest == {} {
      assert IsLeast(s, x);
    } else {
      LeastExists(rest);
      var m :| IsLeast(rest, m);
      assert IsLeast(s, if x < m then x else m);
    }
  }

  function Least(s: set<nat>): (m: nat)
    requires s != {}
    ensures IsLeast(s, m)
  {
    LeastExists(s);
    var m :| m in s && forall x | x in s :: m <= x;
    m
  }

  ghost predicate Lists(ids: seq<nat>, s: set<nat>) {
    forall id :: id in ids <==> id in s
  }

  ghost predicate Increasing(ids: seq<nat>) {
    forall i, j | 0 <= i < j < |ids| :: ids[i] < ids[j]
  }

  ghost predicate Decreasing(ids: seq<nat>) {
    forall i, j | 0 <= i < j < |ids| :: ids[i] > ids[j]
  }

  lemma PrependLeast(m: nat, rest: seq<nat>, s: set<nat>)
    requires IsLeast(s, m) && Lists(rest, s - {m}) && Increasing(rest)
    ensures Lists([m] + rest, s) && Increasing([m] + rest)
  {
    forall j | 0 <= j < |rest|
      ensures m < rest[j]
    {
      assert rest[j] in rest;
    }
  }

  /** Ids in ascending order. */
  function Ascending(s: set<nat>): (ids: seq<nat>)
    ensures Lists(ids, s) && Increasing(ids)
  {
    if s == {} then []
    else
      var m := Least(s);
      var rest := Ascending(s - {m});
      PrependLeast(m, rest, s);
      [m] + rest
  }

  function Reverse(ids: seq<nat>): (r: seq<nat>)
    ensures |r| == |ids| && forall id :: id in r <==> id in ids
    ensures ids != [] ==> r[0] == ids[|ids| - 1]
    ensures Increasing(ids) ==> Decreasing(r)
  {
    if ids == [] then [] else
      assert ids == ids[..|ids| - 1] + [ids[|ids| - 1]];
      [ids[|ids| - 1]] + Reverse(ids[..|ids| - 1])
  }

  function SelectByDeviceFlag(db: Rows, imei: nat, flag: SendFlag): (ids: seq<nat>)
    ensures Increasing(ids)
    ensures forall id :: id in ids <==>
              id in db.tasks && db.tasks[id].deviceImei == Some(imei) && db.tasks[id].sendFlag == flag
  {
    Ascending(set id | id in db.tasks && db.tasks[id].deviceImei == Some(imei) && db.tasks[id].sendFlag == flag)
  }

  /** How often a device is registered for a template. */
  function Registrations(devices: seq<TempDevice>, templateId: nat, imei: nat): (n: nat)
    ensures n > 0 <==> TempDevice(templateId, imei) in devices
  {
    if devices == [] then 0
    else (if devices[0] == TempDevice(templateId, imei) then 1 else 0) + Registrations(devices[1..], templateId, imei)
  }

  function Copies(n: nat, id: nat): (ids: seq<nat>)
    ensures multiset(ids) == multiset{}[id := n]
    ensures |ids| == n && forall i | 0 <= i < n :: ids[i] == id
  {
    if n == 0 then [] else [id] + Copies(n - 1, id)
  }

  ghost predicate Nondecreasing(ids: seq<nat>) {
    forall i, j | 0 <= i < j < |ids| :: ids[i] <= ids[j]
  }

  /** Each id as often as `times` says. */
  function Repeated(ids: seq<nat>, times: nat -> nat): (r: seq<nat>)
    requires Increasing(ids)
    ensures Nondecreasing(r)
    ensures forall id :: multiset(r)[id] == if id in ids then times(id) else 0
  {
    if ids == [] then []
    else
      var copies, r := Copies(times(ids[0]), ids[0]), Repeated(ids[1..], times);
      assert ids == [ids[0]] + ids[1..];
      CopiesFirst(ids[0], copies, r, ids[1..]);
      copies + r
  }

  lemma CopiesFirst(id: nat, copies: seq<nat>, r: seq<nat>, later: seq<nat>)
    requires Increasing([id] + later) && Nondecreasing(r)
    requires (forall i | 0 <= i < |copies| :: copies[i] == id) && forall x :: multiset(r)[x] > 0 ==> x in later
    ensures Nondecreasing(copies + r)
    ensures multiset(copies + r) == multiset(copies) + multiset(r)
    ensures id !in later
  {
    forall x | x in later
      ensures id < x
    {
      var k :| 0 <= k < |later| && later[k] == x;
      assert ([id] + later)[0] < ([id] + later)[k + 1];
    }
    forall i | 0 <= i < |r|
      ensures id < r[i]
    {
      assert r[i] in multiset(r);
    }
  }

  /** Join with the devices registered for the task's template: one row per registration. */
  function SelectRunTaskByType(db: Rows, imei: nat, flag: SendFlag, taskType: TaskType): (ids: seq<nat>)
    ensures Nondecreasing(ids)
    ensures forall id :: multiset(ids)[id] ==
              if id in db.tasks && db.tasks[id].templateId.Some? && db.tasks[id].sendFlag == flag
                 && db.tasks[id].taskType == taskType
              then Registrations(db.tempDevices, db.tasks[id].templateId.value, imei) else 0
  {
    var tasks := set id | id in db.tasks && db.tasks[id].templateId.Some?
                          && db.tasks[id].sendFlag == flag && db.tasks[id].taskType == taskType;
    Repeated(Ascending(tasks),
             id => if id in tasks then Registrations(db.tempDevices, db.tasks[id].templateId.value, imei) else 0)
  }

  function SelectByFlagType(db: Rows, flag: SendFlag, taskType: TaskType, desc: bool): (ids: seq<nat>)
    ensures if desc then Decreasing(ids) else Increasing(ids)
    ensures forall id :: id in ids <==>
              id in db.tasks && db.tasks[id].sendFlag == flag && db.tasks[id].taskType == taskType
  {
    var s := set id | id in db.tasks && db.tasks[id].sendFlag == flag && db.tasks[id].taskType == taskType;
    if desc then Reverse(Ascending(s)) else Ascending(s)
  }
}
