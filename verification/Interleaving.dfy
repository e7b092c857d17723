/**
 * Dispatches that overlap: `dispatch_task` of app/services/send_task.py awaits two or three replies
 * between picking a task and writing it, and other calls run meanwhile.
 */
module Interleaving {
  import opened Dispatch
  import opened Tables
  import opened TaskLife
  import opened TaskOps
  import opened Wrappers

  /** A dispatch in two steps, and every other call on the task table in between. */
  datatype Step =
    | Other(event: TaskLife.Event)
    | Pick(imei: nat, id: nat)
    | Commit(imei: nat, id: nat)

  /** The vehicle whose dispatch a step belongs to. */
  predicate IsOf(s: Step, imei: nat) {
    (s.Pick? || s.Commit?) && s.imei == imei
  }

  /** The write names the row and asks nothing else; for a deleted row it raises. */
  function After(w: R.World, s: Step): R.World {
    match s
    case Other(e) => TaskLife.Next(w, e)
    case Pick(_, _) => w
    case Commit(imei, id) =>
      if id in w.plant.rows.tasks then w.(plant := w.plant.(rows := Dispatched(w.plant.rows, imei, id))) else w
  }

  function Through(w: R.World, steps: seq<Step>): R.World {
    if steps == [] then w else After(Through(w, steps[..|steps| - 1]), steps[|steps| - 1])
  }

  function TasksAfter(w: R.World, steps: seq<Step>, n: nat): map<nat, UserTask>
    requires n <= |steps|
  {
    Through(w, steps[..n]).plant.rows.tasks
  }

  /** The commit at n belongs to the pick at p: `_dispatch_busy` keeps other dispatches of the vehicle from between. */
  ghost predicate PickedAt(steps: seq<Step>, p: nat, n: nat) {
    && p < n < |steps| && steps[n].Commit? && steps[p] == Pick(steps[n].imei, steps[n].id)
    && forall k | p < k < n :: !IsOf(steps[k], steps[n].imei)
  }

  /** A pick answers `edit_and_get_an_task`, and a commit writes what was picked. */
  ghost predicate Possible(w: R.World, steps: seq<Step>) {
    && (forall n | 0 <= n < |steps| && steps[n].Other? && steps[n].event.Base? :: !steps[n].event.event.Send?)
    && (forall n | 0 <= n < |steps| && steps[n].Pick? ::
          IsPick(Through(w, steps[..n]).plant.rows, steps[n].imei, Some(steps[n].id)))
    && (forall n | 0 <= n < |steps| && steps[n].Commit? :: exists p :: PickedAt(steps, p, n))
  }

  // ---------- Flags move on even so ----------

  ghost predicate FlagsMoveOn(a: map<nat, UserTask>, b: map<nat, UserTask>) {
    forall id | id in a && id in b && b[id].sendFlag == Created :: a[id].sendFlag == Created
  }

  lemma CommitKeepsSound(db: Rows, imei: nat, id: nat)
    requires Sound(db.tasks) && id in db.tasks
    ensures var d := Dispatched(db, imei, id);
            Sound(d.tasks) && FlagsMoveOn(db.tasks, d.tasks)
  {
    var d := Dispatched(db, imei, id);
    forall i, j | WaitingCall(d.tasks, i) && WaitingCall(d.tasks, j)
      ensures i == j
    {
      assert WaitingCall(db.tasks, i) && WaitingCall(db.tasks, j);
    }
  }

  lemma OnwardMovesFlags(a: map<nat, UserTask>, b: map<nat, UserTask>)
    requires AllOnward(a, b)
    ensures FlagsMoveOn(a, b)
  {
    forall id | id in a && id in b
      ensures Onward(a[id], b[id])
    {
    }
  }

  lemma StepMovesOn(w: R.World, s: Step)
    requires Sound(w.plant.rows.tasks) && (s.Other? && s.event.Base? ==> !s.event.event.Send?)
    ensures Sound(After(w, s).plant.rows.tasks)
    ensures FlagsMoveOn(w.plant.rows.tasks, After(w, s).plant.rows.tasks)
  {
    hide Sound, TaskLife.Next, AllOnward, NewRowsSound, Dispatched;
    match s
    case Other(e) =>
      StepOnward(w, e);
      SoundStays(w.plant.rows.tasks, TaskLife.Next(w, e).plant.rows.tasks);
      OnwardMovesFlags(w.plant.rows.tasks, TaskLife.Next(w, e).plant.rows.tasks);
    case Pick(_, _) =>
    case Commit(imei, id) =>
      if id in w.plant.rows.tasks {
        CommitKeepsSound(w.plant.rows, imei, id);
      }
  }

  lemma {:induction false} SoundThrough(w: R.World, steps: seq<Step>, n: nat)
    requires Sound(w.plant.rows.tasks) && Possible(w, steps) && n <= |steps|
    ensures Sound(Through(w, steps[..n]).plant.rows.tasks)
    ensures n < |steps| ==> FlagsMoveOn(TasksAfter(w, steps, n), TasksAfter(w, steps, n + 1))
  {
    hide Sound, After, FlagsMoveOn, IsPick, PickedAt;
    if n > 0 {
      SoundThrough(w, steps, n - 1);
      assert steps[..n][..n - 1] == steps[..n - 1];
      StepMovesOn(Through(w, steps[..n - 1]), steps[n - 1]);
    }
    if n < |steps| {
      assert steps[..n + 1][..n] == steps[..n];
      StepMovesOn(Through(w, steps[..n]), steps[n]);
    }
  }

  /** As long as a task is not deleted, it never returns to waiting, however dispatches overlap. */
  lemma {:induction false} NeverWaitsAgain(w: R.World, steps: seq<Step>, i: nat, j: nat, id: nat)
    requires Sound(w.plant.rows.tasks) && Possible(w, steps) && i <= j <= |steps|
    requires forall n | i <= n <= j :: id in TasksAfter(w, steps, n)
    ensures TasksAfter(w, steps, j)[id].sendFlag == Created ==> TasksAfter(w, steps, i)[id].sendFlag == Created
    decreases j
  {
    hide Sound, Possible, TasksAfter;
    if i < j {
      NeverWaitsAgain(w, steps, i, j - 1, id);
      SoundThrough(w, steps, j - 1);
    }
  }

  // ---------- When a task is dispatched twice ----------

  /**
   * Two commits of one task that was not deleted in between: they are of different vehicles, and the
   * second had picked the task before the first wrote it.
   */
  lemma TwiceOnlyIfOverlapping(w: R.World, steps: seq<Step>, i: nat, j: nat, q: nat, id: nat)
    requires Sound(w.plant.rows.tasks) && Possible(w, steps) && i < j < |steps|
    requires steps[i].Commit? && steps[j].Commit? && steps[i].id == steps[j].id == id
    requires forall n | i <= n <= j :: id in TasksAfter(w, steps, n)
    requires PickedAt(steps, q, j)
    ensures q < i && steps[i].imei != steps[j].imei
  {
    hide Sound, IsPick, TasksAfter, Through;
    if q >= i {
      CommitExecutes(w, steps, i);
      PickWaits(Through(w, steps[..q]).plant.rows, steps[q].imei, id);
      WaitingAt(w, steps, q);
      NeverWaitsAgain(w, steps, i + 1, q, id);
    }
    assert IsOf(steps[i], steps[i].imei);
  }

  lemma CommitExecutes(w: R.World, steps: seq<Step>, n: nat)
    requires n < |steps| && steps[n].Commit? && steps[n].id in TasksAfter(w, steps, n)
    ensures steps[n].id in TasksAfter(w, steps, n + 1)
    ensures TasksAfter(w, steps, n + 1)[steps[n].id] ==
            TasksAfter(w, steps, n)[steps[n].id].(deviceImei := Some(steps[n].imei), sendFlag := Executing)
  {
    assert steps[..n + 1][..n] == steps[..n];
  }

  lemma WaitingAt(w: R.World, steps: seq<Step>, n: nat)
    requires n <= |steps|
    ensures TasksAfter(w, steps, n) == Through(w, steps[..n]).plant.rows.tasks
  {
  }

  /** If no step lies between a pick and its commit, no task is dispatched twice without being deleted. */
  lemma AtomicDispatchesOnce(w: R.World, steps: seq<Step>, i: nat, j: nat, id: nat)
    requires Sound(w.plant.rows.tasks) && Possible(w, steps) && i < j < |steps|
    requires forall n | 0 < n < |steps| && steps[n].Commit? :: steps[n - 1] == Pick(steps[n].imei, steps[n].id)
    requires steps[i].Commit? && steps[j].Commit? && steps[i].id == steps[j].id == id
    ensures exists n :: i <= n <= j && id !in TasksAfter(w, steps, n)
  {
    hide Sound, IsPick, TasksAfter;
    if forall n | i <= n <= j :: id in TasksAfter(w, steps, n) {
      assert PickedAt(steps, j - 1, j);
      TwiceOnlyIfOverlapping(w, steps, i, j, j - 1, id);
    }
  }

  /** It does happen: two vehicles pick the one waiting task, and both write it. */
  function Race(a: nat, b: nat): seq<Step> {
    [Pick(a, 1), Pick(b, 1), Commit(a, 1), Commit(b, 1)]
  }

  function WaitingForAnyone(): UserTask {
    UserTask(None, Created, Unassigned, NoAction, Some(7), "1", 0, Some(8), "2", 0, None, [])
  }

  lemma RaceSendsTwice(w: R.World, a: nat, b: nat)
    requires a != b && w.plant.rows.tasks == map[1 := WaitingForAnyone()]
    ensures Sound(w.plant.rows.tasks) && Possible(w, Race(a, b))
    ensures PickedAt(Race(a, b), 0, 2) && PickedAt(Race(a, b), 1, 3)
    ensures forall n | 0 <= n <= 4 :: 1 in TasksAfter(w, Race(a, b), n)
    ensures TasksAfter(w, Race(a, b), 3)[1].deviceImei == Some(a)
    ensures TasksAfter(w, Race(a, b), 4)[1].deviceImei == Some(b)
  {
    hide Sound, IsPick, TasksAfter, Through, After;
    var steps := Race(a, b);
    RaceRun(w, a, b);
    OnlyTaskIsBest(w.plant.rows, a);
    OnlyTaskIsBest(w.plant.rows, b);
    OnlyTaskIsSound(w.plant.rows.tasks);
    assert PickedAt(steps, 0, 2) && PickedAt(steps, 1, 3);
  }

  lemma RaceRun(w: R.World, a: nat, b: nat)
    requires w.plant.rows.tasks == map[1 := WaitingForAnyone()]
    ensures Through(w, Race(a, b)[..0]) == Through(w, Race(a, b)[..1]) == Through(w, Race(a, b)[..2]) == w
    ensures forall n | 0 <= n <= 4 :: 1 in TasksAfter(w, Race(a, b), n)
    ensures TasksAfter(w, Race(a, b), 3)[1].deviceImei == Some(a)
    ensures TasksAfter(w, Race(a, b), 4)[1].deviceImei == Some(b)
  {
    hide After, Through;
    var steps := Race(a, b);
    NoStep(w, steps);
    PickChangesNothing(w, steps, 0);
    PickChangesNothing(w, steps, 1);
    CommitExecutes(w, steps, 2);
    CommitExecutes(w, steps, 3);
  }

  lemma NoStep(w: R.World, steps: seq<Step>)
    ensures Through(w, steps[..0]) == w
  {
  }

  lemma PickChangesNothing(w: R.World, steps: seq<Step>, n: nat)
    requires n < |steps| && steps[n].Pick?
    ensures Through(w, steps[..n + 1]) == Through(w, steps[..n])
  {
    assert steps[..n + 1][..n] == steps[..n];
  }

  lemma OnlyTaskIsBest(db: Rows, imei: nat)
    requires db.tasks == map[1 := WaitingForAnyone()]
    ensures IsPick(db, imei, Some(1))
  {
    assert Eligible(db, imei, 1);
  }

  lemma OnlyTaskIsSound(tasks: map<nat, UserTask>)
    requires tasks == map[1 := WaitingForAnyone()]
    ensures Sound(tasks)
  {
  }
}
