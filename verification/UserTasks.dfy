/** Calls that operators make on single tasks, app/services/user_task.py. */
module UserTasks {
  import opened Tables
  import opened TaskOps
  import opened UserTaskProxy
  import opened Wrappers

  /** What these calls read of a vehicle's stored memory table. */
  datatype VehicleState = VehicleState(flag: nat, model: nat, userTaskId: nat)

  /** The answer, or the command that is sent to a vehicle instead of changing a row. */
  datatype Control = Refused | Done | Terminate(imei: nat) | StartOrPause(imei: nat)

  function MemoryOf(memory: map<nat, VehicleState>, imei: Option<nat>): Option<VehicleState> {
    if imei.Some? && imei.value in memory then Some(memory[imei.value]) else None
  }

  /** The vehicle of the task reports that it is working on it. */
  predicate WorksOn(memory: map<nat, VehicleState>, id: nat, t: UserTask) {
    var m := MemoryOf(memory, t.deviceImei);
    m.Some? && m.value.userTaskId == id
  }

  /** `cancel_task`: every waiting task of the vehicle. */
  function Cancelling(db: Rows, imei: nat): Rows {
    db.(tasks := map id | id in db.tasks ::
      if db.tasks[id].deviceImei == Some(imei) && db.tasks[id].sendFlag == Created
      then db.tasks[id].(sendFlag := Cancelled) else db.tasks[id])
  }

  /** `del_user_task` */
  function Deleting(db: Rows, id: nat): Rows {
    db.(tasks := db.tasks - {id})
  }

  function UnfinishedCalls(db: Rows): set<nat> {
    set id | id in db.tasks && Active(db.tasks[id]) && db.tasks[id].taskType == CallDevice
  }

  function CallTask(site: nat, handel: string): UserTask {
    UserTask(None, Created, CallDevice, NoAction, Some(site), if handel == "" then "0" else handel, 0,
             None, "", 0, None, [])
  }

  function CallResult(db: Rows, site: Option<nat>, handel: string): (Rows, Outcome<bool>) {
    if site.None? || UnfinishedCalls(db) != {} then (db, Value(false))
    else
      var id := db.sequence + 1;
      if id in db.tasks then (db, Raises)
      else (db.(tasks := db.tasks[id := CallTask(site.value, handel)], sequence := id), Value(true))
  }

  /** state: "1" start, "2" pause, "3" end. */
  function SetTaskResult(db: Rows, memory: map<nat, VehicleState>, id: nat, state: string): (Rows, Control) {
    if id !in db.tasks then (db, Refused)
    else
      var t := db.tasks[id];
      var m := MemoryOf(memory, t.deviceImei);
      if state == "3" && !WorksOn(memory, id, t) then (SetFlag(db, id, Cancelled), Done)
      else if m.None? || m.value.model !in {2, 3} then (db, Refused)
      else if state == "3" then (db, Terminate(t.deviceImei.value))
      else if state in {"1", "2"} && WorksOn(memory, id, t) then (db, StartOrPause(t.deviceImei.value))
      else (db, Done)
  }

  ghost predicate IsNewestCall(db: Rows, id: nat) {
    id in UnfinishedCalls(db) && forall o | o in UnfinishedCalls(db) :: o <= id
  }

  /** An executing call whose vehicle reports state 85 is ended on the vehicle, any other in the table. */
  predicate EndsOnVehicle(memory: map<nat, VehicleState>, id: nat, t: UserTask) {
    t.sendFlag == Executing && Truthy(t.deviceImei) && WorksOn(memory, id, t)
    && memory[t.deviceImei.value].flag == 0x85
  }

  /** The first of both lists once they are sorted together, newest first. */
  method NewestCall(db: Rows) returns (newest: Option<nat>)
    ensures newest.None? <==> UnfinishedCalls(db) == {}
    ensures newest.Some? ==> IsNewestCall(db, newest.value)
  {
    hide SelectByFlagType;
    var rows := SelectByFlagType(db, Created, CallDevice, true);
    var rows2 := SelectByFlagType(db, Executing, CallDevice, true);
    assert forall x :: x in UnfinishedCalls(db) <==> x in rows || x in rows2;
    if rows == [] && rows2 == [] {
      assert UnfinishedCalls(db) == {};
      return None;
    }
    var id := if rows == [] then rows2[0] else if rows2 == [] || rows[0] > rows2[0] then rows[0] else rows2[0];
    assert id in rows || id in rows2;
    newest := Some(id);
  }

  /** `set_task` sends the command, refuses or does nothing exactly in these cases. */
  lemma SetTaskSendsIff(db: Rows, memory: map<nat, VehicleState>, id: nat, state: string)
    requires id in db.tasks
    ensures var c, imei := SetTaskResult(db, memory, id, state).1, db.tasks[id].deviceImei;
            var known := imei.Some? && imei.value in memory;
            var onIt := known && memory[imei.value].userTaskId == id;
            var inMode := known && (memory[imei.value].model == 2 || memory[imei.value].model == 3);
            && (c.Terminate? <==> state == "3" && onIt && inMode)
            && (c.StartOrPause? <==> (state == "1" || state == "2") && onIt && inMode)
            && (c.Refused? <==> !inMode && !(state == "3" && !onIt))
            && (SetTaskResult(db, memory, id, state).0.tasks[id].sendFlag ==
                if state == "3" && !onIt then Cancelled else db.tasks[id].sendFlag)
  {
  }

  /** A call waits at the site for any vehicle, under the next number of the sequence; it has no end. */
  lemma CallAdds(db: Rows, site: Option<nat>, handel: string)
    ensures var (d, r) := CallResult(db, site, handel);
            && (r == Value(true) <==>
                  site.Some? && UnfinishedCalls(db) == {} && db.sequence + 1 !in db.tasks)
            && (r == Raises <==> site.Some? && UnfinishedCalls(db) == {} && db.sequence + 1 in db.tasks)
            && (r != Value(true) ==> d == db)
            && (r == Value(true) ==>
                  && d.sequence == db.sequence + 1 && d.tasks.Keys == db.tasks.Keys + {d.sequence}
                  && (forall o | o in db.tasks :: d.tasks[o] == db.tasks[o])
                  && UnfinishedCalls(d) == {d.sequence}
                  && (forall imei :: Eligible(d, imei, d.sequence))
                  && var t := d.tasks[d.sequence];
                     && t.startSite == site && t.endSite == None && t.deviceImei == None && t.pickPlace == NoAction
                     && t.startHandel == (if handel == "" then "0" else handel))
  {
    var (d, r) := CallResult(db, site, handel);
    if r == Value(true) {
      forall o
        ensures o in UnfinishedCalls(d) <==> o == d.sequence
      {
        assert o !in UnfinishedCalls(db);
      }
    }
  }

  /** `cancel_task` reaches every waiting task of the vehicle and nothing else. */
  lemma CancelReachesIff(db: Rows, imei: nat, id: nat)
    requires id in db.tasks
    ensures id in Cancelling(db, imei).tasks
    ensures Cancelling(db, imei).tasks[id] ==
            if db.tasks[id].deviceImei == Some(imei) && db.tasks[id].sendFlag == Created
            then db.tasks[id].(sendFlag := Cancelled) else db.tasks[id]
  {
  }

  /** `cancel_task` reaches only tasks assigned when they were created: no others carry a vehicle while waiting. */
  lemma CancelReachesAssigned(db: Rows, imei: nat, id: nat)
    requires WaitingUnbound(db.tasks) && id in db.tasks && Cancelling(db, imei).tasks[id] != db.tasks[id]
    ensures db.tasks[id].taskType == Assigned && db.tasks[id].deviceImei == Some(imei)
    ensures Cancelling(db, imei).tasks[id] == db.tasks[id].(sendFlag := Cancelled)
  {
  }

  /** Deleting a task takes it out of every offer and changes no offer of another task. */
  lemma DeletionKeepsOffers(db: Rows, id: nat, imei: nat, pick: Option<nat>)
    ensures !IsPick(Deleting(db, id), imei, Some(id))
    ensures pick != Some(id) && IsPick(db, imei, pick) ==> IsPick(Deleting(db, id), imei, pick)
  {
    var d := Deleting(db, id);
    forall o
      ensures Eligible(d, imei, o) <==> Eligible(db, imei, o) && o != id
    {
    }
  }

  /**
   * `set_task` commands a vehicle only while that vehicle, in mode 2 or 3, reports working on this
   * very task, and otherwise changes at most this task's flag, to "7", when it is to end.
   */
  lemma SetTaskReaches(db: Rows, memory: map<nat, VehicleState>, id: nat, state: string)
    ensures var (d, c) := SetTaskResult(db, memory, id, state);
            && (c.Terminate? || c.StartOrPause? ==>
                 && d == db && id in db.tasks && WorksOn(memory, id, db.tasks[id])
                 && db.tasks[id].deviceImei == Some(c.imei) && memory[c.imei].model in {2, 3}
                 && (c.Terminate? <==> state == "3"))
            && (id in db.tasks && state == "3" && !WorksOn(memory, id, db.tasks[id]) ==>
                 c == Done && id in d.tasks && d.tasks[id] == db.tasks[id].(sendFlag := Cancelled))
            && (forall o | o in db.tasks && o != id :: o in d.tasks && d.tasks[o] == db.tasks[o])
            && d.tasks.Keys == db.tasks.Keys && d.(tasks := db.tasks) == db
            && (state != "3" ==> d == db)
  {
  }

  /** In the vehicle's own report: it executes this call, in state 85. */
  lemma EndsOnVehicleIff(memory: map<nat, VehicleState>, id: nat, t: UserTask)
    ensures EndsOnVehicle(memory, id, t) <==>
              && t.sendFlag == Executing && t.deviceImei.Some? && t.deviceImei.value != 0
              && t.deviceImei.value in memory
              && memory[t.deviceImei.value].flag == 133 && memory[t.deviceImei.value].userTaskId == id
  {
  }

  class UserTaskService {
    method CancelTask(session: Session, imei: Option<nat>) returns (ok: bool)
      modifies session
      ensures ok == imei.Some?
      ensures session.rows == if imei.Some? then Cancelling(old(session.rows), imei.value) else old(session.rows)
    {
      if imei.None? {
        return false;
      }
      var tasks := session.rows.tasks;
      session.rows := session.rows.(tasks := map id | id in tasks ::
        if tasks[id].deviceImei == imei && tasks[id].sendFlag == Created
        then tasks[id].(sendFlag := Cancelled) else tasks[id]);
      ok := true;
    }

    method CallDeviceTask(session: Session, site: Option<nat>, handel: string) returns (r: Outcome<bool>)
      modifies session
      ensures (session.rows, r) == CallResult(old(session.rows), site, handel)
    {
      if site.None? {
        return Value(false);
      }
      if UnfinishedCalls(session.rows) != {} {
        return Value(false);
      }
      var id := session.rows.sequence + 1;
      if id in session.rows.tasks {
        return Raises;
      }
      session.rows := session.rows.(sequence := id);
      session.rows := session.rows.(tasks := session.rows.tasks[id := CallTask(site.value, handel)]);
      r := Value(true);
    }

    /** `id`: the task with the form's message id, unused if there is none. */
    method SetTask(session: Session, memory: map<nat, VehicleState>, id: nat, state: string) returns (c: Control)
      modifies session
      ensures (session.rows, c) == SetTaskResult(old(session.rows), memory, id, state)
    {
      if id !in session.rows.tasks {
        return Refused;
      }
      var t := session.rows.tasks[id];
      var mem := MemoryOf(memory, t.deviceImei);
      if state == "3" && (mem.None? || mem.value.userTaskId != id) {
        session.rows := session.rows.(tasks := session.rows.tasks[id := t.(sendFlag := Cancelled)]);
        return Done;
      }
      if mem.None? || mem.value.model !in {2, 3} {
        return Refused;
      }
      if state == "3" {
        return Terminate(t.deviceImei.value);
      }
      if (state == "1" || state == "2") && mem.value.userTaskId == id {
        return StartOrPause(t.deviceImei.value);
      }
      c := Done;
    }

    /** Ends the newest unfinished call; without one nothing happens. */
    method CancelCallDeviceTask(session: Session, memory: map<nat, VehicleState>) returns (c: Control)
      modifies session
      ensures UnfinishedCalls(old(session.rows)) == {} ==> c == Done && session.rows == old(session.rows)
      ensures forall id | IsNewestCall(old(session.rows), id) ::
                var t := old(session.rows).tasks[id];
                if EndsOnVehicle(memory, id, t)
                then c == Terminate(t.deviceImei.value) && session.rows == old(session.rows)
                else c == Done && session.rows == SetFlag(old(session.rows), id, Cancelled)
    {
      var db := session.rows;
      var newest := NewestCall(db);
      if newest.None? {
        return Done;
      }
      var id := newest.value;
      var t := db.tasks[id];
      if t.sendFlag == Executing && Truthy(t.deviceImei) {
        var mem := MemoryOf(memory, t.deviceImei);
        if mem.Some? && mem.value.flag == 0x85 && mem.value.userTaskId == id {
          return Terminate(t.deviceImei.value);
        }
      }
      session.rows := db.(tasks := db.tasks[id := t.(sendFlag := Cancelled)]);
      c := Done;
    }

    method DelUserTask(session: Session, id: nat)
      modifies session
      ensures session.rows == Deleting(old(session.rows), id)
    {
      session.rows := session.rows.(tasks := session.rows.tasks - {id});
    }
  }
}
