/**
 * Nothing releases a reservation except picking and placing: a storage left at "2" or "3" by a
 * cancelled, failed or deleted task stays there until its own site announces something new.
 */
module Stranded {
  import opened Reservation
  import opened TaskOps
  import opened Tables
  import opened UserTaskProxy
  import opened UserTasks
  import opened Wrappers

  /** In work, but for no unfinished task. */
  ghost predicate StrandedAs(db: Rows, code: nat, status: SiteStatus) {
    && status in {Outgoing, Incoming} && code in db.storages && db.storages[code].siteStatus == status
    && Untouched(db.tasks, code)
  }

  ghost predicate Untouched(tasks: map<nat, UserTask>, code: nat) {
    forall id | id in tasks && Active(tasks[id]) :: tasks[id].startSite != Some(code) && tasks[id].endSite != Some(code)
  }

  /** What an unfinished task leaves behind when it ends other than by placing. */
  ghost predicate Strands(d: Rows, t: UserTask) {
    && t.startSite.Some? && t.endSite.Some?
    && (t.pickPlace == NoAction ==> StrandedAs(d, t.startSite.value, Outgoing))
    && (t.pickPlace != Placed ==> StrandedAs(d, t.endSite.value, Incoming))
  }

  /** Ending an unfinished task, whatever ends it, strands the storages it still holds. */
  lemma EndingStrands(db: Rows, d: Rows, id: nat)
    requires Inv(db) && id in db.tasks && Active(db.tasks[id]) && d.storages == db.storages
    requires id in d.tasks ==> !Active(d.tasks[id])
    requires forall o | o in d.tasks && Active(d.tasks[o]) :: o in db.tasks && d.tasks[o] == db.tasks[o]
    ensures Strands(d, db.tasks[id])
  {
    assert Reserved(db, db.tasks[id]);
    OnlyItsOwn(db, id);
  }

  lemma CancelStrands(db: Rows, imei: nat, id: nat)
    requires Inv(db) && id in db.tasks && db.tasks[id].deviceImei == Some(imei) && db.tasks[id].sendFlag == Created
    ensures Strands(Cancelling(db, imei), db.tasks[id])
  {
    EndingStrands(db, Cancelling(db, imei), id);
  }

  /** Ended by the operator while its vehicle is not on it. */
  lemma SetTaskStrands(db: Rows, memory: map<nat, VehicleState>, id: nat)
    requires Inv(db) && id in db.tasks && Active(db.tasks[id]) && !WorksOn(memory, id, db.tasks[id])
    ensures Strands(SetTaskResult(db, memory, id, "3").0, db.tasks[id])
  {
    EndingStrands(db, SetTaskResult(db, memory, id, "3").0, id);
  }

  lemma DeletionStrands(db: Rows, id: nat)
    requires Inv(db) && id in db.tasks && Active(db.tasks[id])
    ensures Strands(Deleting(db, id), db.tasks[id])
  {
    EndingStrands(db, Deleting(db, id), id);
  }

  /** Flag 3, failed, and flag 4, cancelled, from the vehicle that executes the task. */
  lemma FailureStrands(p: Plant, r: Report, unlocked: bool)
    requires Inv(p.rows) && OnTask(p.rows, r) && r.taskFlag in {3, 4}
    requires !UnlockFails(r, unlocked) && !RepeatsFlag(p.flagMap, r)
    ensures Strands(TaskUpdate(p.rows, p.flagMap, r, unlocked).0, p.rows.tasks[r.taskId])
  {
    EndingStrands(p.rows, TaskUpdate(p.rows, p.flagMap, r, unlocked).0, r.taskId);
  }

  /** Under the invariant no other unfinished task starts or ends at a site of a task. */
  lemma OnlyItsOwn(db: Rows, id: nat)
    requires Inv(db) && id in db.tasks && Active(db.tasks[id])
    ensures forall o | o in db.tasks && o != id && Active(db.tasks[o]) ::
              && db.tasks[o].startSite !in {db.tasks[id].startSite, db.tasks[id].endSite}
              && db.tasks[o].endSite !in {db.tasks[id].startSite, db.tasks[id].endSite}
  {
    assert Reserved(db, db.tasks[id]);
    forall o | o in db.tasks && o != id && Active(db.tasks[o])
      ensures db.tasks[o].startSite !in {db.tasks[id].startSite, db.tasks[id].endSite}
      ensures db.tasks[o].endSite !in {db.tasks[id].startSite, db.tasks[id].endSite}
    {
      assert Reserved(db, db.tasks[o]);
    }
  }

  lemma CreateLeaves(db: Rows, code: nat, act: CodeAct, autoId: nat, stranded: nat, status: SiteStatus)
    requires Inv(db) && StrandedAs(db, stranded, status) && code != stranded
    ensures StrandedAs(CreateResult(db, code, act, autoId).0, stranded, status)
  {
    hide Choose, NewTask;
    var d := CreateResult(db, code, act, autoId).0;
    if d != db {
      var r := Choose(db, code, act).value;
      ChoiceIsFree(db, code, act);
      NewTaskHolds(db, r);
    }
  }

  lemma FlagLeaves(p: Plant, r: Report, unlocked: bool, stranded: nat, status: SiteStatus)
    requires Inv(p.rows) && FlagAllowed(p, r, unlocked) && StrandedAs(p.rows, stranded, status)
    ensures StrandedAs(TaskUpdate(p.rows, p.flagMap, r, unlocked).0, stranded, status)
  {
  }

  lemma ForkLeaves(db: Rows, keys: map<ForkId, ForkKey>, r: Report, now: int, stranded: nat, status: SiteStatus)
    requires Inv(db) && ForkAllowed(db, keys, r, now) && StrandedAs(db, stranded, status)
    ensures StrandedAs(StorageUpdate(db, keys, r, now).0, stranded, status)
  {
    assert RowEffect(db, r) == db;
  }

  lemma StepLeaves(w: World, e: Event, stranded: nat, status: SiteStatus)
    requires Inv(w.plant.rows) && Allowed(w, e) && StrandedAs(w.plant.rows, stranded, status)
    requires e.Create? ==> e.code != stranded
    ensures StrandedAs(Next(w, e).plant.rows, stranded, status)
  {
    hide Inv, TaskUpdate, StorageUpdate, CreateResult;
    match e
    case Create(code, act, autoId) => CreateLeaves(w.plant.rows, code, act, autoId, stranded, status);
    case Send(imei, id) => assert Eligible(w.plant.rows, imei, id);
    case Beat(r, unlocked) =>
      FlagKeeps(w.plant, r, unlocked);
      FlagLeaves(w.plant, r, unlocked, stranded, status);
      var d := TaskUpdate(w.plant.rows, w.plant.flagMap, r, unlocked).0;
      ForkLeaves(d, w.plant.forkKeys, r, w.now, stranded, status);
    case Cancel(imei) =>
    case Set(memory, id, state) =>
    case Delete(id) =>
    case Tick(_) =>
  }

  /** No run gives the storage back unless a task is created from its own site. */
  lemma {:induction false} StrandedStays(w: World, events: seq<Event>, stranded: nat, status: SiteStatus)
    requires Inv(w.plant.rows) && AllowedRun(w, events) && StrandedAs(w.plant.rows, stranded, status)
    requires forall n | 0 <= n < |events| && events[n].Create? :: events[n].code != stranded
    ensures StrandedAs(Run(w, events).plant.rows, stranded, status)
  {
    hide Inv, StrandedAs, Next;
    if events != [] {
      var n := |events| - 1;
      PrefixAllowed(w, events, n);
      ReservationsHold(w, events[..n]);
      StrandedStays(w, events[..n], stranded, status);
      StepLeaves(Run(w, events[..n]), events[n], stranded, status);
    }
  }
}
