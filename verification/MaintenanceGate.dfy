/**
 The gate that keeps backups apart from mutations: an asynchronous and a
 synchronous read-write lock and the mutex of Git service operations, for any
 number of tasks.  The asynchronous lock admits its waiters in the order they
 came; the other two promise no order and may admit any of theirs.
 */
module MaintenanceGate {

  // A backup takes both locks for writing before it reads the instance.
  datatype BackupStage = BackupStart | WantsAsync | HasAsync | WantsSync | Archiving | BackupDone

  // A service mutation takes the synchronous lock for reading, and most also the mutex.
  datatype ServiceStage = ServiceStart | WantsRead | HasRead | WantsMutex | Operating | ServiceDone

  // A push holds one asynchronous lease from its advertisement to its end.
  datatype PushStage = PushStart | WantsLease | Leased | PushDone

  datatype Task =
    | Backup(backup: BackupStage)
    | Service(service: ServiceStage, usesGit: bool)
    | Push(push: PushStage)

  type TaskId = nat

  datatype Gate = Gate(tasks: seq<Task>, asyncQueue: seq<TaskId>, syncQueue: seq<TaskId>, mutexQueue: seq<TaskId>)

  predicate AsyncWriter(t: Task) {
    t.Backup? && t.backup in {HasAsync, WantsSync, Archiving}
  }

  predicate AsyncReader(t: Task) {
    t.Push? && t.push == Leased
  }

  predicate SyncWriter(t: Task) {
    t.Backup? && t.backup == Archiving
  }

  predicate SyncReader(t: Task) {
    t.Service? && t.service in {HasRead, WantsMutex, Operating}
  }

  predicate MutexHolder(t: Task) {
    t.Service? && t.service == Operating
  }

  predicate WaitsAsync(t: Task) {
    t == Backup(WantsAsync) || t == Push(WantsLease)
  }

  predicate WaitsSync(t: Task) {
    t == Backup(WantsSync) || (t.Service? && t.service == WantsRead)
  }

  predicate WaitsMutex(t: Task) {
    t.Service? && t.service == WantsMutex
  }

  predicate Finished(t: Task) {
    t == Backup(BackupDone) || (t.Service? && t.service == ServiceDone) || t == Push(PushDone)
  }

  // A task moves on by itself, or is admitted by the lock it waits for.
  datatype Step = Proceed(id: TaskId) | AdmitAsync | AdmitSync(at: nat) | AdmitMutex(at: nat)

  predicate Waits(t: Task) {
    WaitsAsync(t) || WaitsSync(t) || WaitsMutex(t)
  }

  predicate Enabled(g: Gate, s: Step) {
    match s
    case Proceed(id) => id < |g.tasks| && !Waits(g.tasks[id]) && !Finished(g.tasks[id])
    case AdmitAsync =>
      && g.asyncQueue != [] && g.asyncQueue[0] < |g.tasks|
      && (forall i :: 0 <= i < |g.tasks| ==> !AsyncWriter(g.tasks[i]))
      && (g.tasks[g.asyncQueue[0]].Backup? ==> forall i :: 0 <= i < |g.tasks| ==> !AsyncReader(g.tasks[i]))
    case AdmitSync(at) =>
      && at < |g.syncQueue| && g.syncQueue[at] < |g.tasks|
      && (forall i :: 0 <= i < |g.tasks| ==> !SyncWriter(g.tasks[i]))
      && (g.tasks[g.syncQueue[at]].Backup? ==> forall i :: 0 <= i < |g.tasks| ==> !SyncReader(g.tasks[i]))
    case AdmitMutex(at) =>
      && at < |g.mutexQueue| && g.mutexQueue[at] < |g.tasks|
      && (forall i :: 0 <= i < |g.tasks| ==> !MutexHolder(g.tasks[i]))
  }

  // The next stage of a task, whether it moves by itself or is admitted.
  function NextStage(t: Task): Task {
    match t
    case Backup(stage) =>
      Backup(match stage
             case BackupStart => WantsAsync
             case WantsAsync => HasAsync
             case HasAsync => WantsSync
             case WantsSync => Archiving
             case Archiving => BackupDone
             case BackupDone => BackupDone)
    case Service(stage, usesGit) =>
      Service(match stage
              case ServiceStart => WantsRead
              case WantsRead => HasRead
              case HasRead => if usesGit then WantsMutex else ServiceDone
              case WantsMutex => Operating
              case Operating => ServiceDone
              case ServiceDone => ServiceDone, usesGit)
    case Push(stage) =>
      Push(match stage
           case PushStart => WantsLease
           case WantsLease => Leased
           case Leased => PushDone
           case PushDone => PushDone)
  }

  function Without(queue: seq<TaskId>, at: nat): seq<TaskId>
    requires at < |queue|
  {
    queue[..at] + queue[at + 1..]
  }

  function Effect(g: Gate, s: Step): Gate
    requires Enabled(g, s)
  {
    match s
    case Proceed(id) =>
      var t := NextStage(g.tasks[id]);
      g.(tasks := g.tasks[id := t],
      asyncQueue := if WaitsAsync(t) then g.asyncQueue + [id] else g.asyncQueue,
      syncQueue := if WaitsSync(t) then g.syncQueue + [id] else g.syncQueue,
      mutexQueue := if WaitsMutex(t) then g.mutexQueue + [id] else g.mutexQueue)
    case AdmitAsync =>
      var id := g.asyncQueue[0];
      g.(tasks := g.tasks[id := NextStage(g.tasks[id])], asyncQueue := Without(g.asyncQueue, 0))
    case AdmitSync(at) =>
      var id := g.syncQueue[at];
      g.(tasks := g.tasks[id := NextStage(g.tasks[id])], syncQueue := Without(g.syncQueue, at))
    case AdmitMutex(at) =>
      var id := g.mutexQueue[at];
      g.(tasks := g.tasks[id := NextStage(g.tasks[id])], mutexQueue := Without(g.mutexQueue, at))
  }

  function Mover(g: Gate, s: Step): TaskId
    requires Enabled(g, s)
  {
    match s case Proceed(i) => i case AdmitAsync => g.asyncQueue[0] case AdmitSync(at) => g.syncQueue[at] case AdmitMutex(at) => g.mutexQueue[at]
  }

  lemma MoverMoves(g: Gate, s: Step)
    requires Enabled(g, s)
    ensures var id := Mover(g, s); id < |g.tasks| && Effect(g, s).tasks == g.tasks[id := NextStage(g.tasks[id])]
  {
  }

  predicate Fresh(t: Task) {
    t == Backup(BackupStart) || (t.Service? && t.service == ServiceStart) || t == Push(PushStart)
  }

  ghost predicate Next(g: Gate, g': Gate) {
    exists s :: Enabled(g, s) && g' == Effect(g, s)
  }

  ghost predicate IsRun(run: seq<Gate>) {
    && |run| > 0
    && (forall i :: 0 <= i < |run[0].tasks| ==> Fresh(run[0].tasks[i]))
    && run[0].asyncQueue == run[0].syncQueue == run[0].mutexQueue == []
    && forall i :: 0 <= i < |run| - 1 ==> Next(run[i], run[i + 1])
  }

  // A queue holds exactly the tasks that wait for its lock, each once.
  ghost predicate QueueSound(tasks: seq<Task>, queue: seq<TaskId>, waits: Task -> bool) {
    && (forall k :: 0 <= k < |queue| ==> queue[k] < |tasks| && waits(tasks[queue[k]]))
    && (forall i :: 0 <= i < |tasks| && waits(tasks[i]) ==> i in queue)
    && (forall j, k :: 0 <= j < k < |queue| ==> queue[j] != queue[k])
  }

  ghost predicate Queues(g: Gate) {
    && QueueSound(g.tasks, g.asyncQueue, WaitsAsync)
    && QueueSound(g.tasks, g.syncQueue, WaitsSync)
    && QueueSound(g.tasks, g.mutexQueue, WaitsMutex)
  }

  predicate Apart(t: Task, u: Task) {
    && !(AsyncWriter(t) && (AsyncWriter(u) || AsyncReader(u)))
    && !(SyncWriter(t) && (SyncWriter(u) || SyncReader(u)))
    && !(MutexHolder(t) && MutexHolder(u))
  }

  // Writers are alone, and the mutex has one holder.
  ghost predicate Exclusion(tasks: seq<Task>) {
    forall i, j :: 0 <= i < |tasks| && 0 <= j < |tasks| && i != j ==> Apart(tasks[i], tasks[j])
  }

  ghost predicate Inv(g: Gate) {
    Queues(g) && Exclusion(g.tasks)
  }

  lemma QueueLeft(tasks: seq<Task>, queue: seq<TaskId>, waits: Task -> bool, at: nat, t: Task)
    requires QueueSound(tasks, queue, waits) && at < |queue| && !waits(t)
    ensures QueueSound(tasks[queue[at] := t], Without(queue, at), waits)
  {
    var tasks', queue' := tasks[queue[at] := t], Without(queue, at);
    assert forall k :: 0 <= k < |queue'| ==> queue'[k] == queue[if k < at then k else k + 1];
    forall i | 0 <= i < |tasks'| && waits(tasks'[i])
      ensures i in queue'
    {
      assert waits(tasks[i]) && i in queue;
      assert queue == queue[..at] + [queue[at]] + queue[at + 1..];
    }
  }

  lemma QueueJoined(tasks: seq<Task>, queue: seq<TaskId>, waits: Task -> bool, id: TaskId, t: Task)
    requires QueueSound(tasks, queue, waits) && id < |tasks| && !waits(tasks[id])
    ensures QueueSound(tasks[id := t], if waits(t) then queue + [id] else queue, waits)
  {
    assert id !in queue;
  }

  lemma QueuesKept(g: Gate, s: Step)
    requires Enabled(g, s) && Queues(g)
    ensures Queues(Effect(g, s))
  {
    hide QueueSound;
    var g' := Effect(g, s);
    var id := Mover(g, s);
    QueuedWait(g);
    var t := NextStage(g.tasks[id]);
    if s.AdmitAsync? {
      QueueLeft(g.tasks, g.asyncQueue, WaitsAsync, 0, t);
    } else {
      QueueJoined(g.tasks, g.asyncQueue, WaitsAsync, id, t);
    }
    if s.AdmitSync? {
      QueueLeft(g.tasks, g.syncQueue, WaitsSync, s.at, t);
    } else {
      QueueJoined(g.tasks, g.syncQueue, WaitsSync, id, t);
    }
    if s.AdmitMutex? {
      QueueLeft(g.tasks, g.mutexQueue, WaitsMutex, s.at, t);
    } else {
      QueueJoined(g.tasks, g.mutexQueue, WaitsMutex, id, t);
    }
  }

  lemma QueuedWait(g: Gate)
    requires Queues(g)
    ensures forall k :: 0 <= k < |g.asyncQueue| ==> g.asyncQueue[k] < |g.tasks| && WaitsAsync(g.tasks[g.asyncQueue[k]])
    ensures forall k :: 0 <= k < |g.syncQueue| ==> g.syncQueue[k] < |g.tasks| && WaitsSync(g.tasks[g.syncQueue[k]])
    ensures forall k :: 0 <= k < |g.mutexQueue| ==> g.mutexQueue[k] < |g.tasks| && WaitsMutex(g.tasks[g.mutexQueue[k]])
  {
  }

  // A task that moves gets a lock only when it is free of the others.
  lemma MoverStaysApart(g: Gate, s: Step, id: TaskId, other: TaskId)
    requires Enabled(g, s) && Queues(g) && id == Mover(g, s) < |g.tasks| && other < |g.tasks|
    requires Apart(g.tasks[id], g.tasks[other]) && Apart(g.tasks[other], g.tasks[id])
    ensures Apart(NextStage(g.tasks[id]), g.tasks[other]) && Apart(g.tasks[other], NextStage(g.tasks[id]))
  {
    hide QueueSound;
    QueuedWait(g);
  }

  lemma ExclusionKept(g: Gate, s: Step)
    requires Enabled(g, s) && Inv(g)
    ensures Exclusion(Effect(g, s).tasks)
  {
    hide Apart, NextStage, Enabled, QueueSound;
    QueuedWait(g);
    var id := Mover(g, s);
    MoverMoves(g, s);
    var before, after := g.tasks, Effect(g, s).tasks;
    forall i, j | 0 <= i < |after| && 0 <= j < |after| && i != j
      ensures Apart(after[i], after[j])
    {
      if i == id {
        MoverStaysApart(g, s, id, j);
      } else if j == id {
        MoverStaysApart(g, s, id, i);
      }
    }
  }

  lemma {:induction false} RunKeepsInv(run: seq<Gate>, k: nat)
    requires IsRun(run) && k < |run|
    ensures Inv(run[k]) && |run[k].tasks| == |run[0].tasks|
  {
    hide NextStage, Effect, Enabled;
    if k > 0 {
      RunKeepsInv(run, k - 1);
      assert Next(run[k - 1], run[k - 1 + 1]);
      var s :| Enabled(run[k - 1], s) && run[k] == Effect(run[k - 1], s);
      QueuesKept(run[k - 1], s);
      ExclusionKept(run[k - 1], s);
      MoverMoves(run[k - 1], s);
    }
  }

  /** While a backup reads the instance, no task holds a mutation guard of either kind, and no other backup runs. */
  lemma BackupsRunAlone(run: seq<Gate>, k: nat, i: TaskId, j: TaskId)
    requires IsRun(run) && k < |run| && i < |run[k].tasks| && j < |run[k].tasks| && i != j
    requires run[k].tasks[i] == Backup(Archiving)
    ensures !AsyncReader(run[k].tasks[j]) && !SyncReader(run[k].tasks[j]) && run[k].tasks[j] != Backup(Archiving)
  {
    RunKeepsInv(run, k);
    assert AsyncWriter(run[k].tasks[i]) && SyncWriter(run[k].tasks[i]);
  }

  /** At most one Git service operation runs at any time. */
  lemma OneOperationAtATime(run: seq<Gate>, k: nat, i: TaskId, j: TaskId)
    requires IsRun(run) && k < |run| && i < |run[k].tasks| && j < |run[k].tasks|
    requires MutexHolder(run[k].tasks[i]) && MutexHolder(run[k].tasks[j])
    ensures i == j
  {
    RunKeepsInv(run, k);
  }

  // The stage in which a task does its work, with everything it has to hold.
  predicate Works(t: Task) {
    t == Backup(Archiving) || MutexHolder(t) || t == Service(HasRead, false) || t == Push(Leased)
  }

  /** No task finishes without having held what guards its work: a Git operation the mutex, a backup both locks. */
  lemma {:induction false} FinishedHasWorked(run: seq<Gate>, k: nat, i: TaskId)
    requires IsRun(run) && k < |run| && i < |run[k].tasks| && Finished(run[k].tasks[i])
    ensures exists j :: 0 <= j < k && i < |run[j].tasks| && Works(run[j].tasks[i])
  {
    hide Effect, Enabled, Inv;
    RunKeepsInv(run, k);
    RunKeepsInv(run, 0);
    assert k > 0;
    RunKeepsInv(run, k - 1);
    assert Next(run[k - 1], run[k - 1 + 1]);
    var s :| Enabled(run[k - 1], s) && run[k] == Effect(run[k - 1], s);
    MoverMoves(run[k - 1], s);
    if Finished(run[k - 1].tasks[i]) {
      FinishedHasWorked(run, k - 1, i);
    } else {
      assert Works(run[k - 1].tasks[i]);
    }
  }

  // Each wait points to a lock further in: whoever waits for the innermost lock with waiters finds it free.
  lemma WaitersGetIn(g: Gate, i: TaskId)
    requires Inv(g) && i < |g.tasks| && !Finished(g.tasks[i])
    requires forall j :: 0 <= j < |g.tasks| ==> Waits(g.tasks[j]) || Finished(g.tasks[j])
    ensures Enabled(g, AdmitMutex(0)) || Enabled(g, AdmitSync(0)) || Enabled(g, AdmitAsync)
  {
    hide Exclusion;
    QueuedWait(g);
    forall j | 0 <= j < |g.tasks|
      ensures !MutexHolder(g.tasks[j])
      ensures g.mutexQueue == [] ==> !WaitsMutex(g.tasks[j]) && !SyncReader(g.tasks[j]) && !SyncWriter(g.tasks[j])
      ensures g.syncQueue == [] ==> !WaitsSync(g.tasks[j]) && !AsyncWriter(g.tasks[j])
      ensures !AsyncReader(g.tasks[j])
    {
      assert Waits(g.tasks[j]) || Finished(g.tasks[j]);
    }
    if g.mutexQueue == [] && g.syncQueue == [] {
      assert WaitsAsync(g.tasks[i]) && i in g.asyncQueue;
    }
  }

  /** No wait cycle: as long as some task is unfinished, some task can move. */
  lemma SomeoneCanMove(run: seq<Gate>, k: nat, i: TaskId)
    requires IsRun(run) && k < |run| && i < |run[k].tasks| && !Finished(run[k].tasks[i])
    ensures exists s :: Enabled(run[k], s)
  {
    hide IsRun, Inv;
    var g := run[k];
    RunKeepsInv(run, k);
    if j :| 0 <= j < |g.tasks| && !Waits(g.tasks[j]) && !Finished(g.tasks[j]) {
      assert Enabled(g, Proceed(j));
    } else {
      WaitersGetIn(g, i);
    }
  }

  // How many stages a task still has before it.
  function Remaining(t: Task): nat {
    match t
    case Backup(stage) =>
      (match stage
       case BackupStart => 5 case WantsAsync => 4 case HasAsync => 3
       case WantsSync => 2 case Archiving => 1 case BackupDone => 0)
    case Service(stage, _) =>
      (match stage
       case ServiceStart => 5 case WantsRead => 4 case HasRead => 3
       case WantsMutex => 2 case Operating => 1 case ServiceDone => 0)
    case Push(stage) =>
      (match stage case PushStart => 3 case WantsLease => 2 case Leased => 1 case PushDone => 0)
  }

  function Work(tasks: seq<Task>): nat {
    if tasks == [] then 0 else Remaining(tasks[0]) + Work(tasks[1..])
  }

  lemma {:induction false} WorkShrinks(tasks: seq<Task>, id: nat)
    requires id < |tasks| && !Finished(tasks[id])
    ensures Work(tasks[id := NextStage(tasks[id])]) < Work(tasks)
  {
    var after := tasks[id := NextStage(tasks[id])];
    if id == 0 {
      assert after[1..] == tasks[1..];
    } else {
      WorkShrinks(tasks[1..], id - 1);
      assert after[1..] == tasks[1..][id - 1 := NextStage(tasks[1..][id - 1])];
    }
  }

  lemma StepShrinksWork(g: Gate, s: Step)
    requires Enabled(g, s) && Queues(g)
    ensures Work(Effect(g, s).tasks) < Work(g.tasks)
  {
    hide Work, QueueSound, NextStage;
    QueuedWait(g);
    match s
    case Proceed(id) => WorkShrinks(g.tasks, id);
    case AdmitAsync => WorkShrinks(g.tasks, g.asyncQueue[0]);
    case AdmitSync(at) => WorkShrinks(g.tasks, g.syncQueue[at]);
    case AdmitMutex(at) => WorkShrinks(g.tasks, g.mutexQueue[at]);
  }

  /** No run is longer than the work its tasks start with, so with the lemma above every schedule ends with all tasks finished. */
  lemma {:induction false} RunsAreBounded(run: seq<Gate>, k: nat)
    requires IsRun(run) && k < |run|
    ensures Work(run[k].tasks) + k <= Work(run[0].tasks)
  {
    hide Work, Enabled, Effect, Queues, Exclusion;
    if k > 0 {
      RunsAreBounded(run, k - 1);
      RunKeepsInv(run, k - 1);
      assert Next(run[k - 1], run[k - 1 + 1]);
      var s :| Enabled(run[k - 1], s) && run[k] == Effect(run[k - 1], s);
      StepShrinksWork(run[k - 1], s);
    }
  }

}
