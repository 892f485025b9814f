/** The lifecycle of a background task, with any number of concurrent stoppers and waiters
    (class SyncTaskHandle::Impl of src/sync.cpp). */
module SyncTask {
  datatype Status = Ok | Error(code: int)

  datatype TaskState = Starting | Running | Stopping | Finished

  function Rank(s: TaskState): nat {
    match s
    case Starting => 0
    case Running => 1
    case Stopping => 2
    case Finished => 3
  }

  /** The fields shared between the threads; joinable tells about worker_thread_. */
  datatype Shared = Shared(state: TaskState, status: Status, stopRequested: bool, joinable: bool)

  // ---- What each lock region or atomic operation does to them ----

  const FRESH: Shared := Shared(Starting, Ok, false, false)

  function Spawned(m: Shared): Shared { m.(joinable := true) }

  function Entered(m: Shared): Shared {
    if m.state == Starting then m.(state := Running) else m
  }

  function Completed(m: Shared, status: Status): Shared { m.(state := Finished, status := status) }

  function Flagged(m: Shared): Shared { m.(stopRequested := true) }

  function Stopped(m: Shared): Shared {
    if m.state == Starting || m.state == Running then m.(state := Stopping) else m
  }

  function Taken(m: Shared): Shared { m.(joinable := false) }

  // ---- Threads ----

  datatype Worker =
    | NotStarted
    | Ready                      // before its first region
    | Working                    // in the worker function
    | Returning(result: Status)  // before mark_finished
    | Done(result: Status)

  datatype Waiter =
    | Joining                    // holds the thread object
    | Joined                     // before its second region
    | Waited(result: Status)     // returned after joining
    | Early(result: Status)      // returned without joining

  datatype Stopper = Raised | StopDone

  type Id = nat

  datatype System = System(shared: Shared, worker: Worker, waiters: map<Id, Waiter>, stoppers: map<Id, Stopper>)

  const INITIAL: System := System(FRESH, NotStarted, map[], map[])

  datatype Step =
    | DoStart
    | DoEnter
    | DoReturn(result: Status)
    | DoFinish
    | DoRaise(id: Id)
    | DoStop(id: Id)
    | DoTake(id: Id)
    | DoJoin(id: Id)
    | DoReport(id: Id)
    | DoSelfWait                 // wait called by the worker itself: refused or answered at once

  predicate Enabled(s: System, step: Step) {
    match step
    case DoStart => s.worker.NotStarted?
    case DoEnter => s.worker.Ready?
    case DoReturn(_) => s.worker.Working?
    case DoFinish => s.worker.Returning?
    case DoRaise(id) => id !in s.stoppers
    case DoStop(id) => id in s.stoppers && s.stoppers[id].Raised?
    case DoTake(id) => id !in s.waiters
    case DoJoin(id) => id in s.waiters && s.waiters[id].Joining? && s.worker.Done?
    case DoReport(id) => id in s.waiters && s.waiters[id].Joined?
    case DoSelfWait => s.worker.Working?
  }

  function After(s: System, step: Step): System
    requires Enabled(s, step)
  {
    var m := s.shared;
    match step
    case DoStart => s.(shared := Spawned(m), worker := Ready)
    case DoEnter => s.(shared := Entered(m), worker := Working)
    case DoReturn(result) => s.(worker := Returning(result))
    case DoFinish => s.(shared := Completed(m, s.worker.result), worker := Done(s.worker.result))
    case DoRaise(id) => s.(shared := Flagged(m), stoppers := s.stoppers[id := Raised])
    case DoStop(id) => s.(shared := Stopped(m), stoppers := s.stoppers[id := StopDone])
    case DoTake(id) =>
      if m.joinable then s.(shared := Taken(m), waiters := s.waiters[id := Joining])
      else s.(waiters := s.waiters[id := Early(m.status)])
    case DoJoin(id) => s.(waiters := s.waiters[id := Joined])
    case DoReport(id) => s.(waiters := s.waiters[id := Waited(m.status)])
    case DoSelfWait => s
  }

  // ---- Runs: any interleaving of the steps ----

  ghost predicate Next(s: System, u: System) {
    exists step {:trigger Enabled(s, step)} :: Enabled(s, step) && u == After(s, step)
  }

  ghost predicate IsRun(run: seq<System>) {
    && run != [] && run[0] == INITIAL
    && forall i, j {:trigger run[i], run[j]} | 0 <= i && j == i + 1 && j < |run| :: Next(run[i], run[j])
  }

  predicate HoldsThread(w: Waiter) {
    !w.Early?
  }

  /** How far the worker is. */
  function Progress(w: Worker): nat {
    match w
    case NotStarted => 0
    case Ready => 1
    case Working => 2
    case Returning(_) => 3
    case Done(_) => 4
  }

  /** No waiter has taken the thread. */
  ghost predicate NobodyHolds(s: System) {
    forall i | i in s.waiters :: s.waiters[i].Early?
  }

  ghost predicate Inv(s: System) {
    && (s.shared.state == Running ==> Progress(s.worker) == 2 || Progress(s.worker) == 3)
    && (s.shared.state == Starting ==> Progress(s.worker) <= 1)
    && (s.shared.state == Finished <==> s.worker.Done?)
    && s.shared.status == (if s.worker.Done? then s.worker.result else Ok)
    && (forall i | i in s.waiters && s.waiters[i].Early? ::
          s.waiters[i].result == Ok || s.worker == Done(s.waiters[i].result))
    && (s.worker.NotStarted? ==> NobodyHolds(s))
    && (s.shared.joinable <==> !s.worker.NotStarted? && NobodyHolds(s))
    && (forall i, j | i in s.waiters && j in s.waiters &&
          HoldsThread(s.waiters[i]) && HoldsThread(s.waiters[j]) :: i == j)
    && (forall i | i in s.waiters && (s.waiters[i].Joined? || s.waiters[i].Waited?) :: s.worker.Done?)
    && (forall i | i in s.waiters && s.waiters[i].Waited? :: s.worker == Done(s.waiters[i].result))
    && (s.shared.state == Stopping ==> s.shared.stopRequested)
    && (forall i | i in s.stoppers :: s.shared.stopRequested)
  }

  lemma StepKeepsInv(s: System, step: Step)
    requires Inv(s) && Enabled(s, step)
    ensures Inv(After(s, step))
  {
    match step
    case DoTake(id) => TakeKeepsInv(s, id);
    case DoJoin(id) => JoinKeepsInv(s, id);
    case DoReport(id) => ReportKeepsInv(s, id);
    case DoRaise(id) =>
    case DoStop(id) =>
    case _ =>
  }

  lemma TakeKeepsInv(s: System, id: Id)
    requires Inv(s) && Enabled(s, DoTake(id))
    ensures Inv(After(s, DoTake(id)))
  {
    var u := After(s, DoTake(id));
    assert u.waiters == s.waiters[id := if s.shared.joinable then Joining else Early(s.shared.status)];
    assert u.shared.state == s.shared.state && u.worker == s.worker && id in u.waiters;
    hide After;
    assert forall i | i in s.waiters :: i in u.waiters && u.waiters[i] == s.waiters[i];
    assert NobodyHolds(u) <==> NobodyHolds(s) && !s.shared.joinable;
  }

  lemma JoinKeepsInv(s: System, id: Id)
    requires Inv(s) && Enabled(s, DoJoin(id))
    ensures Inv(After(s, DoJoin(id)))
  {
    var u := After(s, DoJoin(id));
    assert u == s.(waiters := s.waiters[id := Joined]) && id in u.waiters;
    hide After;
    assert !NobodyHolds(u) && !NobodyHolds(s);
  }

  lemma ReportKeepsInv(s: System, id: Id)
    requires Inv(s) && Enabled(s, DoReport(id))
    ensures Inv(After(s, DoReport(id)))
  {
    var u := After(s, DoReport(id));
    assert u == s.(waiters := s.waiters[id := Waited(s.shared.status)]) && id in u.waiters;
    hide After;
    assert !NobodyHolds(u) && !NobodyHolds(s);
  }

  lemma {:induction false} RunKeepsInv(run: seq<System>, i: nat)
    requires IsRun(run) && i < |run|
    ensures Inv(run[i])
  {
    if i > 0 {
      RunKeepsInv(run, i - 1);
      var step :| Enabled(run[i - 1], step) && run[i] == After(run[i - 1], step);
      StepKeepsInv(run[i - 1], step);
    }
  }

  /** What never goes back: state, worker, the stop request, and the results of waiters. */
  ghost predicate Later(s: System, u: System) {
    && Rank(s.shared.state) <= Rank(u.shared.state)
    && Progress(s.worker) <= Progress(u.worker)
    && (s.worker.Done? ==> u.worker == s.worker && u.shared.status == s.shared.status)
    && (s.shared.stopRequested ==> u.shared.stopRequested)
    && (forall i | i in s.waiters :: i in u.waiters)
    && (forall i | i in s.waiters && (s.waiters[i].Waited? || s.waiters[i].Early?) :: u.waiters[i] == s.waiters[i])
    && (forall i | i in s.waiters && HoldsThread(s.waiters[i]) :: HoldsThread(u.waiters[i]))
  }

  lemma StepIsLater(s: System, step: Step)
    requires Inv(s) && Enabled(s, step)
    ensures Later(s, After(s, step))
  {
  }

  lemma NextIsLater(s: System, u: System)
    requires Inv(s) && Next(s, u)
    ensures Later(s, u)
  {
    hide Later;
    var step :| Enabled(s, step) && u == After(s, step);
    StepIsLater(s, step);
  }

  /** The state moves forward only, over any part of any run; Finished is absorbing. */
  lemma {:induction false} RunsMoveForward(run: seq<System>, i: nat, j: nat)
    requires IsRun(run) && i <= j < |run|
    ensures Later(run[i], run[j])
    ensures run[i].shared.state == Finished ==> run[j].shared.state == Finished
    decreases j - i
  {
    if i < j {
      hide Inv, Next;
      assert Next(run[j - 1], run[j]);
      RunsMoveForward(run, i, j - 1);
      RunKeepsInv(run, j - 1);
      NextIsLater(run[j - 1], run[j]);
    } else {
      hide Inv;
      RunKeepsInv(run, i);
    }
  }

  /** A stop that comes before the worker's first step: the task is never seen running. */
  lemma StoppedBeforeStart(run: seq<System>, i: nat, j: nat)
    requires IsRun(run) && i < |run| && j < |run|
    requires run[i].shared.state == Stopping && Progress(run[i].worker) <= 1
    ensures run[j].shared.state != Running
  {
    RunKeepsInv(run, j);
    if j <= i {
      RunsMoveForward(run, j, i);
    } else {
      RunsMoveForward(run, i, j);
    }
  }

  /** The worker thread is joined at most once in a whole run. */
  lemma JoinedOnce(run: seq<System>, i: nat, j: nat, a: Id, b: Id)
    requires IsRun(run) && i <= j < |run|
    requires a in run[i].waiters && HoldsThread(run[i].waiters[a])
    requires b in run[j].waiters && HoldsThread(run[j].waiters[b])
    ensures a == b
  {
    RunsMoveForward(run, i, j);
    RunKeepsInv(run, j);
  }

  /** The first who begins to wait once the worker is started joins it. */
  lemma FirstWaiterJoins(run: seq<System>, i: nat, a: Id)
    requires IsRun(run) && i + 1 < |run| && a !in run[i].waiters && a in run[i + 1].waiters
    requires !run[i].worker.NotStarted?
    ensures run[i + 1].waiters[a].Joining? <==> forall b | b in run[i].waiters :: !HoldsThread(run[i].waiters[b])
  {
    assert Next(run[i], run[i + 1]) by { hide Next; }
    BeginsToWait(run[i], run[i + 1], a);
    hide Next;
    RunKeepsInv(run, i);
  }

  /** The waiter that joins returns exactly what the worker function returned, and not before the end. */
  lemma JoinerReturnsResult(run: seq<System>, i: nat, a: Id)
    requires IsRun(run) && i < |run| && a in run[i].waiters && run[i].waiters[a].Waited?
    ensures run[i].shared.state == Finished && run[i].worker == Done(run[i].waiters[a].result)
  {
    RunKeepsInv(run, i);
  }

  lemma EarlyStep(s: System, u: System, a: Id, result: Status)
    requires Next(s, u) && a in u.waiters && u.waiters[a] == Early(result)
    ensures a in s.waiters ==> s.waiters[a] == Early(result)
    ensures a !in s.waiters ==> s.shared.status == result
  {
  }

  lemma {:induction false} EarlyAfterEnd(run: seq<System>, i: nat, j: nat, a: Id, result: Status)
    requires IsRun(run) && i <= j < |run| && run[i].worker.Done?
    requires a !in run[i].waiters && a in run[j].waiters && run[j].waiters[a] == Early(result)
    ensures run[i].shared.status == result
    decreases j - i
  {
    hide Next;
    assert Next(run[j - 1], run[j]);
    EarlyStep(run[j - 1], run[j], a, result);
    RunsMoveForward(run, i, j - 1);
    if a in run[j - 1].waiters {
      EarlyAfterEnd(run, i, j - 1, a, result);
    }
  }

  /** A waiter that starts to wait when the task is finished returns the result of the worker,
      whether it joins or not. */
  lemma WaitAfterEnd(run: seq<System>, i: nat, j: nat, a: Id, result: Status)
    requires IsRun(run) && i <= j < |run| && run[i].shared.state == Finished
    requires a !in run[i].waiters && a in run[j].waiters
    requires run[j].waiters[a] == Waited(result) || run[j].waiters[a] == Early(result)
    ensures run[i].worker == Done(result)
  {
    RunKeepsInv(run, i);
    if run[j].waiters[a].Early? {
      EarlyAfterEnd(run, i, j, a, result);
    } else {
      RunsMoveForward(run, i, j);
      RunKeepsInv(run, j);
    }
  }

  /** The waiter has returned with this result. */
  predicate ReturnedWith(s: System, a: Id, result: Status) {
    a in s.waiters && (s.waiters[a] == Waited(result) || s.waiters[a] == Early(result))
  }

  /** The step with which a begins to wait, and what it finds. */
  lemma BeginsToWait(s: System, u: System, a: Id)
    requires Next(s, u) && a !in s.waiters && a in u.waiters
    ensures u.worker == s.worker
    ensures u.waiters[a] == if s.shared.joinable then Joining else Early(s.shared.status)
  {
  }

  /** A wait that begins at i, whenever it has returned: it returns what the worker returns if and only
      if the caller still finds the thread or a finished task when it begins, or the worker returns Ok
      anyway. */
  lemma WaitReturnsResultIff(run: seq<System>, i: nat, j: nat, a: Id, result: Status)
    requires IsRun(run) && i < j < |run| && a !in run[i].waiters && a in run[i + 1].waiters
    requires ReturnedWith(run[j], a, result) && run[j].worker.Done?
    ensures run[j].worker.result == result <==>
            run[i].shared.joinable || run[i].shared.state == Finished || run[j].worker.result == Ok
  {
    hide Next;
    WaitBegun(run, i, j, a, result);
  }

  lemma WaitBegun(run: seq<System>, i: nat, j: nat, a: Id, result: Status)
    requires IsRun(run) && i < j < |run| && a !in run[i].waiters && a in run[i + 1].waiters
    requires ReturnedWith(run[j], a, result)
    ensures if run[i].shared.joinable || run[i].shared.state == Finished
            then run[j].worker == Done(result)
            else result == Ok && run[i + 1].waiters[a] == Early(Ok) && !run[i + 1].worker.Done?
  {
    assert Next(run[i], run[i + 1]) by { hide Next; }
    BeginsToWait(run[i], run[i + 1], a);
    hide Next;
    RunKeepsInv(run, i);
    RunKeepsInv(run, j);
    RunsMoveForward(run, i, j);
    RunsMoveForward(run, i + 1, j);
  }

  /** The second of two concurrent waiters may return before the worker has finished, and with
      another status than the worker will have. */
  lemma SecondWaiterMayBeEarly() returns (run: seq<System>)
    ensures IsRun(run)
    ensures var last := run[|run| - 1];
            && last.worker == Done(Error(1)) && 1 in last.waiters && last.waiters[1] == Early(Ok)
    ensures exists i | 0 <= i < |run| :: run[i].worker.Working? && 1 in run[i].waiters && run[i].waiters[1].Early?
  {
    var s1 := After(INITIAL, DoStart);
    var s2 := After(s1, DoEnter);
    var s3 := After(s2, DoTake(0));
    var s4 := After(s3, DoTake(1));
    var s5 := After(s4, DoReturn(Error(1)));
    var s6 := After(s5, DoFinish);
    run := [INITIAL, s1, s2, s3, s4, s5, s6];
    assert run[4].worker.Working?;
  }

  // ---- The object itself ----

  lemma RunGrows(run: seq<System>, step: Step)
    requires IsRun(run) && Enabled(run[|run| - 1], step)
    ensures IsRun(run + [After(run[|run| - 1], step)])
  {
    var longer := run + [After(run[|run| - 1], step)];
    forall i, j | 0 <= i && j == i + 1 && j < |longer| ensures Next(longer[i], longer[j]) {
      if j < |run| {
        assert Next(run[i], run[j]);
      } else {
        assert longer[i] == run[|run| - 1] && longer[j] == After(longer[i], step);
      }
    }
  }

  /** SyncTaskHandle::Impl. Its lock regions, in whatever order the threads come to them, go through
      a run, so what is proved about all runs holds of every such object. */
  class Task {
    var state: TaskState
    var status: Status
    var stopRequested: bool
    var joinable: bool
    /** Where the object and all its threads have been. */
    ghost var history: seq<System>

    ghost predicate Valid()
      reads this
    {
      IsRun(history) && Now().shared == Shared(state, status, stopRequested, joinable)
    }

    ghost function Now(): System
      requires history != []
      reads this
    {
      history[|history| - 1]
    }

    /** This step was taken, and no other; the run stays one in which nothing goes back. */
    twostate predicate Did(step: Step)
      requires old(Valid())
      reads this
    {
      && Valid() && Enabled(old(Now()), step) && history == old(history) + [After(old(Now()), step)]
      && Inv(Now()) && Later(old(Now()), Now())
    }

    ghost method Log(step: Step)
      requires IsRun(history) && Enabled(Now(), step)
      requires After(Now(), step).shared == Shared(state, status, stopRequested, joinable)
      modifies this`history
      ensures history == old(history) + [After(old(Now()), step)]
      ensures Valid() && Inv(old(Now())) && Inv(Now()) && Later(old(Now()), Now())
    {
      hide Inv, Later, Enabled, After;
      RunGrows(history, step);
      RunKeepsInv(history, |history| - 1);
      StepKeepsInv(Now(), step);
      StepIsLater(Now(), step);
      history := history + [After(Now(), step)];
    }

    constructor ()
      ensures Valid() && history == [INITIAL]
    {
      state, status, stopRequested, joinable := Starting, Ok, false, false;
      history := [INITIAL];
    }

    method Start()
      requires Valid() && Now().worker.NotStarted?
      modifies this
      ensures Did(DoStart)
    {
      joinable := true;
      Log(DoStart);
    }

    /** The first region of run: afterwards the task runs, unless it has been asked to stop. */
    method EnterWorker()
      requires Valid() && Now().worker.Ready?
      modifies this
      ensures Did(DoEnter)
      ensures state == Running || (state == Stopping && stopRequested)
    {
      if state == Starting {
        state := Running;
      }
      Log(DoEnter);
    }

    /** mark_finished, with what the worker function returned; whoever was told before that it need
        not join was told Ok. */
    method MarkFinished(taskStatus: Status)
      requires Valid() && Now().worker == Returning(taskStatus)
      modifies this
      ensures Did(DoFinish)
      ensures Now().worker == Done(taskStatus)
      ensures forall id | id in Now().waiters && Now().waiters[id].Early? :: Now().waiters[id] == Early(Ok)
    {
      status := taskStatus;
      state := Finished;
      Log(DoFinish);
    }

    /** The store at the beginning of request_stop. */
    method RaiseStop(ghost id: Id)
      requires Valid() && id !in Now().stoppers
      modifies this
      ensures Did(DoRaise(id))
    {
      stopRequested := true;
      Log(DoRaise(id));
    }

    /** The region of request_stop: a finished task stays finished, any other is stopping. */
    method MarkStopping(ghost id: Id)
      requires Valid() && id in Now().stoppers && Now().stoppers[id].Raised?
      modifies this
      ensures Did(DoStop(id))
      ensures state == if old(Now()).worker.Done? then Finished else Stopping
    {
      if state == Starting || state == Running {
        state := Stopping;
      }
      Log(DoStop(id));
    }

    /** The first region of wait, in another thread than the worker: at most one caller is told to
        join, and whoever is not told to gets the result of the worker if that is done, and Ok if not. */
    method TakeThread(ghost id: Id) returns (join: bool, early: Status)
      requires Valid() && id !in Now().waiters
      modifies this
      ensures Did(DoTake(id))
      ensures join <==> !Now().worker.NotStarted? && old(NobodyHolds(Now()))
      ensures join ==> forall i | i in Now().waiters && HoldsThread(Now().waiters[i]) :: i == id
      ensures !join ==> early == if Now().worker.Done? then Now().worker.result else Ok
    {
      join, early := joinable, status;
      joinable := false;
      Log(DoTake(id));
    }

    /** The last region of wait, after the join: the result of the worker. */
    method Report(ghost id: Id) returns (result: Status)
      requires Valid() && id in Now().waiters && Now().waiters[id].Joined?
      modifies this`history
      ensures Did(DoReport(id)) && Now().worker == Done(result)
    {
      result := status;
      Log(DoReport(id));
    }
  }
}
