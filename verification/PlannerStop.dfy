/** The planning closure of a chat task racing with the stop route: each request below is the code
    one handler runs between two awaits. */
module PlannerStop {
  import opened Common

  /** The update route writes any text it is given as a status. */
  datatype Status = Pending | Running | Completed | Failed | OtherStatus(text: string)
  datatype Task = Task(status: Status, parent: Id)

  /** Where a planning closure is suspended; FallingBack is the single run started by its catch block. */
  datatype Pc = Planning | Executing | Summarizing | RunningSingle | FallingBack | Finished
  datatype Closure = Closure(pc: Pc, aborted: bool)

  /** Tasks, the ids registered in activeSchedulers, and the closures with their scheduler's flag. */
  datatype World = World(tasks: map<Id, Task>, active: set<Id>, closures: map<Id, Closure>)

  /** `order` lists the subtasks of a stopped task by priority and age, as the task listing does. */
  datatype Request =
    | Launch(id: Id)
    | PlanReady(id: Id, split: bool)
    | StartBreaks(id: Id, wrote: bool)
    | AwaitFails(id: Id)
    | ExecuteDone(id: Id)
    | SummaryDone(id: Id)
    | SingleDone(id: Id)
    | Stop(id: Id, killed: set<Id>, order: seq<Id>)
    | Outside(id: Id, status: Status)
    | Spawn(id: Id, parent: Id)
    | Remove(id: Id)

  predicate Stopped(w: World, id: Id) {
    id !in w.tasks || w.tasks[id].status == Failed || w.tasks[id].status == Completed
  }

  predicate At(w: World, id: Id, pc: Pc) { id in w.closures && w.closures[id].pc == pc }

  function Move(w: World, id: Id, pc: Pc): World
    requires id in w.closures
  {
    w.(closures := w.closures[id := w.closures[id].(pc := pc)])
  }

  function Write(w: World, id: Id, status: Status): World {
    if id in w.tasks then w.(tasks := w.tasks[id := w.tasks[id].(status := status)]) else w
  }

  function Unregister(w: World, id: Id): World { w.(active := w.active - {id}) }

  /** The catch block: unregister, then fall back to a single run unless the task was stopped. */
  function Caught(w: World, id: Id): World
    requires id in w.closures
  {
    Move(Unregister(w, id), id, if Stopped(w, id) then Finished else FallingBack)
  }

  function DoLaunch(w: World, id: Id): World {
    if id in w.closures || id in w.tasks then w
    else w.(tasks := w.tasks[id := Task(Pending, NoId)], closures := w.closures[id := Closure(Planning, false)])
  }

  function DoPlanReady(w: World, id: Id, split: bool): World {
    if !At(w, id, Planning) then w
    else if Stopped(w, id) then Move(w, id, Finished)
    else if split then Move(Write(w.(active := w.active + {id}), id, Running), id, Executing)
    else Move(w, id, RunningSingle)
  }

  /** Starting the scheduler throws after registering it, before or after the task was written. */
  function DoStartBreaks(w: World, id: Id, wrote: bool): World {
    if !At(w, id, Planning) then w
    else if Stopped(w, id) then Move(w, id, Finished)
    else Caught(if wrote then Write(w, id, Running) else w, id)
  }

  function DoAwaitFails(w: World, id: Id): World {
    if At(w, id, Planning) || At(w, id, Executing) || At(w, id, Summarizing) || At(w, id, RunningSingle)
    then Caught(w, id) else w
  }

  function DoExecuteDone(w: World, id: Id): World {
    if !At(w, id, Executing) then w
    else Move(Unregister(w, id), id, if Stopped(w, id) then Finished else Summarizing)
  }

  function DoSummaryDone(w: World, id: Id): World {
    if !At(w, id, Summarizing) then w
    else Move(if Stopped(w, id) then w else Write(w, id, Completed), id, Finished)
  }

  function Abort(w: World, id: Id): World {
    if id in w.active && id in w.closures
    then Unregister(w, id).(closures := w.closures[id := w.closures[id].(aborted := true)])
    else Unregister(w, id)
  }

  predicate Unfinished(t: Task) { t.status == Running || t.status == Pending }

  /** Rows that stopTaskAgent marked failed along with their processes. */
  function Kill(tasks: map<Id, Task>, id: Id, killed: set<Id>): map<Id, Task> {
    map x | x in tasks ::
      if x in killed && (x == id || tasks[x].parent == id) then tasks[x].(status := Failed) else tasks[x]
  }

  /** The listing returns one page unless told otherwise. */
  const PAGE := 50

  function FirstPage(order: seq<Id>): seq<Id> { if |order| <= PAGE then order else order[..PAGE] }

  function FailUnfinished(tasks: map<Id, Task>, listed: seq<Id>): map<Id, Task> {
    map x | x in tasks :: if x in listed && Unfinished(tasks[x]) then tasks[x].(status := Failed) else tasks[x]
  }

  /** The stop route: abort, kill, fail the task as it stood on entry, fail its first page of subtasks. */
  function DoStop(w: World, id: Id, killed: set<Id>, order: seq<Id>): World {
    if id !in w.tasks then w
    else
      var aborted := Abort(w, id).(tasks := Kill(w.tasks, id, killed));
      var failed := if Unfinished(w.tasks[id]) then Write(aborted, id, Failed) else aborted;
      failed.(tasks := FailUnfinished(failed.tasks, FirstPage(order)))
  }

  function Step(w: World, r: Request): World {
    match r
    case Launch(id) => DoLaunch(w, id)
    case PlanReady(id, split) => DoPlanReady(w, id, split)
    case StartBreaks(id, wrote) => DoStartBreaks(w, id, wrote)
    case AwaitFails(id) => DoAwaitFails(w, id)
    case ExecuteDone(id) => DoExecuteDone(w, id)
    case SummaryDone(id) => DoSummaryDone(w, id)
    case SingleDone(id) => if At(w, id, RunningSingle) || At(w, id, FallingBack) then Move(w, id, Finished) else w
    case Stop(id, killed, order) => DoStop(w, id, killed, order)
    case Outside(id, status) => Write(w, id, status)
    case Spawn(id, parent) => if id in w.tasks then w else w.(tasks := w.tasks[id := Task(Pending, parent)])
    case Remove(id) => w.(tasks := w.tasks - {id})
  }

  /** What the closure of a task itself writes to it in this step. */
  function ClosureWrites(w: World, r: Request): Option<Status> {
    match r
    case PlanReady(id, split) => if At(w, id, Planning) && !Stopped(w, id) && split then Some(Running) else None
    case StartBreaks(id, wrote) => if At(w, id, Planning) && !Stopped(w, id) && wrote then Some(Running) else None
    case SummaryDone(id) => if At(w, id, Summarizing) && !Stopped(w, id) then Some(Completed) else None
    case _ => None
  }

  class Server {
    var tasks: map<Id, Task>
    var active: set<Id>
    var closures: map<Id, Closure>

    ghost function Value(): World
      reads this
    {
      World(tasks, active, closures)
    }

    constructor ()
      ensures Value() == World(map[], {}, map[])
    {
      tasks, active, closures := map[], {}, map[];
    }

    method IsTaskStopped(id: Id) returns (b: bool)
      ensures b == Stopped(Value(), id)
    {
      b := id !in tasks || tasks[id].status == Failed || tasks[id].status == Completed;
    }

    method UpdateTask(id: Id, status: Status)
      modifies this`tasks
      ensures Value() == Write(old(Value()), id, status)
    {
      if id in tasks { tasks := tasks[id := tasks[id].(status := status)]; }
    }

    method Suspend(id: Id, pc: Pc)
      requires id in closures
      modifies this`closures
      ensures Value() == Move(old(Value()), id, pc)
    {
      closures := closures[id := closures[id].(pc := pc)];
    }

    /** Planning returned: the check, the registration and the write to running share one turn. */
    method AfterPlanning(id: Id, split: bool)
      requires At(Value(), id, Planning)
      modifies this
      ensures Value() == DoPlanReady(old(Value()), id, split)
    {
      var stopped := IsTaskStopped(id);
      if stopped {
        Suspend(id, Finished);
        return;
      }
      if split {
        active := active + {id};
        UpdateTask(id, Running);
        Suspend(id, Executing);
      } else {
        Suspend(id, RunningSingle);
      }
    }

    method AfterExecution(id: Id)
      requires At(Value(), id, Executing)
      modifies this
      ensures Value() == DoExecuteDone(old(Value()), id)
    {
      active := active - {id};
      var stopped := IsTaskStopped(id);
      Suspend(id, if stopped then Finished else Summarizing);
    }

    method AfterSummary(id: Id)
      requires At(Value(), id, Summarizing)
      modifies this
      ensures Value() == DoSummaryDone(old(Value()), id)
    {
      var stopped := IsTaskStopped(id);
      if !stopped { UpdateTask(id, Completed); }
      Suspend(id, Finished);
    }

    method AfterFailure(id: Id)
      requires id in closures && closures[id].pc in {Planning, Executing, Summarizing, RunningSingle}
      modifies this
      ensures Value() == DoAwaitFails(old(Value()), id)
    {
      active := active - {id};
      var stopped := IsTaskStopped(id);
      Suspend(id, if stopped then Finished else FallingBack);
    }

    method StopTask(id: Id, killed: set<Id>, order: seq<Id>) returns (found: bool)
      requires Lists(tasks, id, order)
      modifies this
      ensures found <==> id in old(tasks)
      ensures Value() == DoStop(old(Value()), id, killed, order)
    {
      if id !in tasks { return false; }
      var task := tasks[id];
      AbortScheduler(id);
      MarkKilled(id, killed);
      if Unfinished(task) { UpdateTask(id, Failed); }
      FailListed(FirstPage(order));
      found := true;
    }

    method AbortScheduler(id: Id)
      modifies this`active, this`closures
      ensures Value() == Abort(old(Value()), id)
    {
      if id in active {
        if id in closures { closures := closures[id := closures[id].(aborted := true)]; }
        active := active - {id};
      }
      assert id !in old(active) ==> old(active) - {id} == old(active);
    }

    method MarkKilled(id: Id, killed: set<Id>)
      modifies this`tasks
      ensures tasks == Kill(old(tasks), id, killed)
    {
      var todo := set x | x in tasks && x in killed && (x == id || tasks[x].parent == id);
      ghost var done := {};
      while todo != {}
        invariant todo !! done
        invariant todo + done == set x | x in old(tasks) && x in killed && (x == id || old(tasks)[x].parent == id)
        invariant tasks == map x | x in old(tasks) ::
          if x in done then old(tasks)[x].(status := Failed) else old(tasks)[x]
        decreases todo
      {
        var x :| x in todo;
        UpdateTask(x, Failed);
        todo, done := todo - {x}, done + {x};
      }
    }

    /** The loop over the page of subtasks that the listing returned. */
    method FailListed(listed: seq<Id>)
      requires forall i | 0 <= i < |listed| :: listed[i] in tasks
      modifies this`tasks
      ensures tasks == FailUnfinished(old(tasks), listed)
    {
      for i := 0 to |listed|
        invariant tasks == FailUnfinished(old(tasks), listed[..i])
      {
        if Unfinished(tasks[listed[i]]) { UpdateTask(listed[i], Failed); }
        FailOneMore(old(tasks), listed, i);
      }
      assert listed[..|listed|] == listed;
    }
  }

  lemma FailOneMore(tasks: map<Id, Task>, listed: seq<Id>, i: nat)
    requires i < |listed| && listed[i] in tasks
    ensures var before := FailUnfinished(tasks, listed[..i]);
      FailUnfinished(tasks, listed[..i + 1]) ==
        if Unfinished(before[listed[i]]) then before[listed[i] := before[listed[i]].(status := Failed)] else before
  {
    assert listed[..i + 1] == listed[..i] + [listed[i]];
  }

  /** These are the subtasks of a task, each once. */
  ghost predicate Lists(tasks: map<Id, Task>, parent: Id, order: seq<Id>) {
    Distinct(order) && forall x :: x in order <==> x in tasks && tasks[x].parent == parent
  }

  // ---------- Runs ----------

  function After(w: World, run: seq<Request>, n: nat): World
    requires n <= |run|
  {
    if n == 0 then w else Step(After(w, run, n - 1), run[n - 1])
  }

  /** An executing scheduler can be reached by a stop, or has been told to stop already. */
  ghost predicate Reachable(w: World) {
    && (forall id | id in w.closures && w.closures[id].pc == Executing :: id in w.active || w.closures[id].aborted)
    && (forall id | id in w.active :: At(w, id, Executing))
  }

  lemma ReachableKept(w: World, r: Request)
    requires Reachable(w)
    ensures Reachable(Step(w, r))
  {
  }

  lemma {:induction false} ReachableAlways(w: World, run: seq<Request>, n: nat)
    requires Reachable(w) && n <= |run|
    ensures Reachable(After(w, run, n))
  {
    if n > 0 {
      ReachableAlways(w, run, n - 1);
      ReachableKept(After(w, run, n - 1), run[n - 1]);
    }
  }

  /** A stop aborts the executing scheduler exactly if the task row still exists to be found. */
  lemma StopAbortsIff(w: World, run: seq<Request>, n: nat, id: Id, killed: set<Id>, order: seq<Id>)
    requires Reachable(w) && n <= |run| && At(After(w, run, n), id, Executing)
    ensures id in Step(After(w, run, n), Stop(id, killed, order)).closures
    ensures Step(After(w, run, n), Stop(id, killed, order)).closures[id].aborted <==>
      id in After(w, run, n).tasks || After(w, run, n).closures[id].aborted
  {
    ReachableAlways(w, run, n);
    StopAbortsStep(After(w, run, n), id, killed, order);
  }

  lemma StopAbortsStep(w: World, id: Id, killed: set<Id>, order: seq<Id>)
    requires Reachable(w) && At(w, id, Executing)
    ensures id in DoStop(w, id, killed, order).closures
    ensures DoStop(w, id, killed, order).closures[id].aborted <==> id in w.tasks || w.closures[id].aborted
  {
  }

  /** Requests by which somebody else than the closure or the stop route may set this task going again. */
  predicate Meddles(r: Request, id: Id) {
    match r
    case Outside(x, status) => x == id && status != Failed && status != Completed
    case Spawn(x, _) => x == id
    case Launch(x) => x == id
    case _ => false
  }

  /** The task is gone, has a status that the stop route knows, or is marked along with its processes. */
  predicate CanStop(w: World, id: Id, killed: set<Id>) {
    id !in w.tasks || !w.tasks[id].status.OtherStatus? || id in killed
  }

  /** Exactly when a stop leaves the task finished or gone. */
  lemma StopHaltsIff(w: World, id: Id, killed: set<Id>, order: seq<Id>)
    ensures Stopped(Step(w, Stop(id, killed, order)), id) <==> CanStop(w, id, killed)
  {
  }

  /** The subtask at position k of the listing is unfinished after a stop exactly if it was before, was
      not marked along with its process, and stands past the first page. */
  lemma SubtaskLeftIff(w: World, id: Id, killed: set<Id>, order: seq<Id>, k: nat)
    requires id in w.tasks && Lists(w.tasks, id, order) && k < |order| && order[k] != id
    ensures order[k] in DoStop(w, id, killed, order).tasks
    ensures Unfinished(DoStop(w, id, killed, order).tasks[order[k]]) <==>
      Unfinished(w.tasks[order[k]]) && order[k] !in killed && k >= 50
  {
    OnFirstPageIff(order, k);
  }

  lemma OnFirstPageIff(order: seq<Id>, k: nat)
    requires Distinct(order) && k < |order|
    ensures order[k] in FirstPage(order) <==> k < PAGE
  {
    if k < PAGE { assert FirstPage(order)[k] == order[k]; }
  }

  /** So a stop leaves no subtask unfinished if there are no more than a page of them. */
  lemma StopFailsSubtasks(w: World, id: Id, killed: set<Id>, order: seq<Id>, x: Id)
    requires id in w.tasks && Lists(w.tasks, id, order) && |order| <= 50 && x != id
    requires x in w.tasks && w.tasks[x].parent == id
    ensures x in DoStop(w, id, killed, order).tasks && !Unfinished(DoStop(w, id, killed, order).tasks[x])
  {
    var k :| 0 <= k < |order| && order[k] == x;
    SubtaskLeftIff(w, id, killed, order, k);
  }

  lemma StoppedStep(w: World, r: Request, id: Id)
    requires Stopped(w, id) && !Meddles(r, id)
    ensures Stopped(Step(w, r), id)
  {
  }

  lemma {:induction false} StaysStopped(w: World, run: seq<Request>, i: nat, j: nat, id: Id)
    requires i <= j <= |run| && Stopped(After(w, run, i), id)
    requires forall k | i <= k < j :: !Meddles(run[k], id)
    ensures Stopped(After(w, run, j), id)
    decreases j
  {
    if i < j {
      StaysStopped(w, run, i, j - 1, id);
      StoppedStep(After(w, run, j - 1), run[j - 1], id);
    }
  }

  /** After a stop, and until somebody else sets the task going again, its closure writes nothing:
      neither running nor completed overwrites the failure, at whichever await it was suspended. */
  lemma NoRevival(w: World, run: seq<Request>, i: nat, j: nat, id: Id)
    requires i < j < |run| && run[i].Stop? && run[i].id == id && run[j].id == id
    requires CanStop(After(w, run, i), id, run[i].killed)
    requires forall k | i < k < j :: !Meddles(run[k], id)
    ensures ClosureWrites(After(w, run, j), run[j]).None?
  {
    StopHaltsIff(After(w, run, i), id, run[i].killed, run[i].order);
    StaysStopped(w, run, i + 1, j, id);
  }

  /** However the run goes on from here without meddling, the closure of the task writes nothing. */
  ghost predicate WritesNoMore(w: World, id: Id) {
    forall run {:trigger Unmeddled(run, id)} | Unmeddled(run, id) :: SilentAtEnd(w, run, id)
  }

  ghost predicate Unmeddled(run: seq<Request>, id: Id) { forall k | 0 <= k < |run| :: !Meddles(run[k], id) }

  ghost predicate SilentAtEnd(w: World, run: seq<Request>, id: Id) {
    run != [] && run[|run| - 1].id == id ==> ClosureWrites(After(w, run, |run| - 1), run[|run| - 1]).None?
  }

  predicate MayWrite(pc: Pc) { pc in {Planning, Executing, Summarizing} }

  lemma PastWriting(w: World, r: Request, id: Id)
    requires id in w.closures && !MayWrite(w.closures[id].pc)
    ensures id in Step(w, r).closures && !MayWrite(Step(w, r).closures[id].pc)
    ensures r.id == id ==> ClosureWrites(w, r).None?
  {
  }

  lemma {:induction false} PastWritingForever(w: World, run: seq<Request>, n: nat, id: Id)
    requires id in w.closures && !MayWrite(w.closures[id].pc) && n <= |run|
    ensures id in After(w, run, n).closures && !MayWrite(After(w, run, n).closures[id].pc)
  {
    if n > 0 {
      PastWritingForever(w, run, n - 1, id);
      PastWriting(After(w, run, n - 1), run[n - 1], id);
    }
  }

  /** What the closure of an unstopped task goes on to do until it writes. */
  function NextWrite(pc: Pc, id: Id): seq<Request> {
    match pc
    case Planning => [PlanReady(id, true)]
    case Executing => [ExecuteDone(id), SummaryDone(id)]
    case _ => [SummaryDone(id)]
  }

  lemma UnstoppedWrites(w: World, id: Id)
    requires id in w.closures && MayWrite(w.closures[id].pc) && !Stopped(w, id)
    ensures !WritesNoMore(w, id)
  {
    var run := NextWrite(w.closures[id].pc, id);
    assert After(w, run, 0) == w;
    if |run| == 2 { assert After(w, run, 1) == DoExecuteDone(w, id); }
    assert Unmeddled(run, id) && !SilentAtEnd(w, run, id);
  }

  /** A stop silences a closure for good, wherever it is suspended, if and only if it can stop the task
      or the closure has no write before it any more. */
  lemma StopSilencesIff(w: World, id: Id, killed: set<Id>, order: seq<Id>)
    requires id in w.closures
    ensures WritesNoMore(DoStop(w, id, killed, order), id) <==> CanStop(w, id, killed) || !MayWrite(w.closures[id].pc)
  {
    var stopped := DoStop(w, id, killed, order);
    StopHaltsIff(w, id, killed, order);
    if CanStop(w, id, killed) {
      forall run | Unmeddled(run, id) ensures SilentAtEnd(stopped, run, id) {
        if run != [] { StaysStopped(stopped, run, 0, |run| - 1, id); }
      }
    } else if MayWrite(w.closures[id].pc) {
      UnstoppedWrites(stopped, id);
    } else {
      forall run | Unmeddled(run, id) ensures SilentAtEnd(stopped, run, id) {
        if run != [] {
          PastWritingForever(stopped, run, |run| - 1, id);
          PastWriting(After(stopped, run, |run| - 1), run[|run| - 1], id);
        }
      }
    }
  }

  /** Only the reported writes of a closure change a task to running or completed in its steps. */
  lemma ClosureWritesAreAll(w: World, r: Request)
    requires r.PlanReady? || r.StartBreaks? || r.AwaitFails? || r.ExecuteDone? || r.SummaryDone? || r.SingleDone?
    ensures Step(w, r).tasks ==
      if ClosureWrites(w, r).Some? then Write(w, r.id, ClosureWrites(w, r).value).tasks else w.tasks
  {
  }

  // ---------- What the handlers do otherwise ----------

  /** A stop changes a task at most to failed: the stopped one, or one of its subtasks. */
  lemma StopOnlyFails(w: World, id: Id, killed: set<Id>, order: seq<Id>, x: Id)
    requires x in w.tasks && (id in w.tasks ==> Lists(w.tasks, id, order))
    ensures DoStop(w, id, killed, order).tasks.Keys == w.tasks.Keys
    ensures DoStop(w, id, killed, order).tasks[x] in {w.tasks[x], w.tasks[x].(status := Failed)}
    ensures x != id && w.tasks[x].parent != id ==> DoStop(w, id, killed, order).tasks[x] == w.tasks[x]
  {
    if id in w.tasks {
      PageIsListed(order, x);
      assert x in order <==> w.tasks[x].parent == id;
    }
  }

  lemma PageIsListed(order: seq<Id>, x: Id)
    ensures x in FirstPage(order) ==> x in order
  {
  }

  /** Unless its process was killed, a task that is neither running nor pending keeps its status. */
  lemma StopKeepsStatus(w: World, id: Id, killed: set<Id>, order: seq<Id>, x: Id)
    requires x in w.tasks && x !in killed && w.tasks[x].status != Running && w.tasks[x].status != Pending
    ensures x in DoStop(w, id, killed, order).tasks && DoStop(w, id, killed, order).tasks[x] == w.tasks[x]
  {
  }

  /** It moves no closure, and aborts and unregisters only the scheduler of the stopped task. */
  lemma StopSparesOthers(w: World, id: Id, killed: set<Id>, order: seq<Id>, x: Id)
    requires x in w.closures
    ensures x in DoStop(w, id, killed, order).closures
      && DoStop(w, id, killed, order).closures[x].pc == w.closures[x].pc
    ensures x != id ==> DoStop(w, id, killed, order).closures[x] == w.closures[x]
    ensures x != id ==> (x in DoStop(w, id, killed, order).active <==> x in w.active)
  {
  }

  /** A task that nobody stops goes from its plan through its scheduler and its summary to completed. */
  lemma UnstoppedCompletes(w: World, id: Id)
    requires At(w, id, Planning) && !Stopped(w, id)
    ensures var running := Step(w, PlanReady(id, true));
      && id in running.active && At(running, id, Executing)
      && running.tasks == w.tasks[id := w.tasks[id].(status := Running)]
    ensures var summing := Step(Step(w, PlanReady(id, true)), ExecuteDone(id));
      At(summing, id, Summarizing) && id !in summing.active
    ensures var done := Step(Step(Step(w, PlanReady(id, true)), ExecuteDone(id)), SummaryDone(id));
      At(done, id, Finished) && done.tasks == w.tasks[id := w.tasks[id].(status := Completed)]
  {
  }

  /** A plan that needs no splitting runs the task by itself, and the closure writes nothing. */
  lemma SingleRuns(w: World, id: Id)
    requires At(w, id, Planning) && !Stopped(w, id)
    ensures At(Step(w, PlanReady(id, false)), id, RunningSingle) && Step(w, PlanReady(id, false)).tasks == w.tasks
    ensures Step(w, PlanReady(id, false)).active == w.active
  {
  }

  /** A failure at any await unregisters the scheduler; the task then runs by itself unless it was stopped,
      and a second failure ends the closure. */
  lemma FailureFallsBack(w: World, id: Id)
    requires id in w.closures && w.closures[id].pc in {Planning, Executing, Summarizing, RunningSingle}
    ensures var t := Step(w, AwaitFails(id));
      && At(t, id, if Stopped(w, id) then Finished else FallingBack) && id !in t.active && t.tasks == w.tasks
      && (!Stopped(w, id) ==> At(Step(t, SingleDone(id)), id, Finished))
  {
  }

  /** Wherever the closure finds its task stopped, it ends and leaves the task alone. */
  lemma StoppedEnds(w: World, id: Id, split: bool)
    requires id in w.closures && Stopped(w, id)
    ensures At(w, id, Planning) ==> EndsQuietly(w, Step(w, PlanReady(id, split)), id)
    ensures At(w, id, Executing) ==> EndsQuietly(w, Step(w, ExecuteDone(id)), id)
    ensures At(w, id, Summarizing) ==> EndsQuietly(w, Step(w, SummaryDone(id)), id)
  {
  }

  ghost predicate EndsQuietly(w: World, t: World, id: Id) { At(t, id, Finished) && t.tasks == w.tasks }

  /** A launched task waits for its plan. */
  lemma LaunchWaits(w: World, id: Id)
    requires id !in w.tasks && id !in w.closures
    ensures var t := Step(w, Launch(id));
      At(t, id, Planning) && !t.closures[id].aborted && id in t.tasks && t.tasks[id].status == Pending
        && !Stopped(t, id)
  {
  }

  /** Tasks are created once, waiting, and outside writes and removals touch no other. */
  lemma OthersWrite(w: World, id: Id, parent: Id, status: Status, x: Id)
    ensures id !in w.tasks ==> Step(w, Spawn(id, parent)).tasks == w.tasks[id := Task(Pending, parent)]
    ensures id in w.tasks ==> Step(w, Spawn(id, parent)) == w
    ensures id in w.tasks ==> Step(w, Outside(id, status)).tasks == w.tasks[id := w.tasks[id].(status := status)]
    ensures Step(w, Remove(id)).tasks == w.tasks - {id} && Step(w, Remove(id)).closures == w.closures
  {
  }
}
