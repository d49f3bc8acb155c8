/** The migration task pool: a bounded queue of tasks, a fixed set of workers, and cancellation from outside. */
module Migrator {
  import opened Options

  type TaskId = string

  const QUEUE_CAPACITY := 100

  datatype TaskState = Pending | Running | Completed | Failed

  /** moved counts the shards whose migration time has elapsed. */
  datatype Task = Task(shards: nat, state: TaskState, moved: nat)

  predicate Active(t: Task) {
    t.state == Pending || t.state == Running
  }

  // ---------- The pool and its atomic steps ----------

  /** Working is before a shard, where the context is looked at; Moving is waiting for the shard's time to pass. */
  datatype Worker =
    | Idle
    | Fetched(task: TaskId)
    | Working(task: TaskId, next: nat)
    | Moving(task: TaskId, next: nat)
    | Finishing(task: TaskId, success: bool)
    | Exited

  /**
   submitting: stored but not yet offered to the queue; cancelling: found active by a cancel that
   has not written yet; executions: the tasks taken from the queue, in order.
   */
  datatype Pool = Pool(
    tasks: map<TaskId, Task>,
    submitting: set<TaskId>,
    queue: seq<TaskId>,
    workers: seq<Worker>,
    cancelling: set<TaskId>,
    executions: seq<TaskId>,
    stopped: bool)

  function Start(maxConcurrent: nat): Pool {
    Pool(map[], {}, [], seq(maxConcurrent, _ => Idle), {}, [], false)
  }

  datatype Event =
    | Store(id: TaskId, shards: nat)
    | Enqueue(id: TaskId)
    | Dequeue(worker: nat)
    | Begin(worker: nat)
    | BeginShard(worker: nat)
    | MoveShard(worker: nat)
    | Succeed(worker: nat)
    | GiveUp(worker: nat)
    | Finish(worker: nat)
    | Exit(worker: nat)
    | CancelCheck(id: TaskId)
    | CancelWrite(id: TaskId)
    | Stop

  function SetState(p: Pool, id: TaskId, state: TaskState): map<TaskId, Task> {
    if id in p.tasks then p.tasks[id := p.tasks[id].(state := state)] else p.tasks
  }

  /** One atomic step; a step that is not possible leaves everything as it is. */
  function Step(p: Pool, e: Event): Pool {
    match e
    case Store(id, shards) =>
      if id in p.tasks then p
      else p.(tasks := p.tasks[id := Task(shards, Pending, 0)], submitting := p.submitting + {id})
    case Enqueue(id) =>
      if id !in p.submitting then p
      else if |p.queue| < QUEUE_CAPACITY then p.(queue := p.queue + [id], submitting := p.submitting - {id})
      else p.(tasks := SetState(p, id, Failed), submitting := p.submitting - {id})
    case CancelCheck(id) =>
      if id in p.tasks && Active(p.tasks[id]) then p.(cancelling := p.cancelling + {id}) else p
    case CancelWrite(id) =>
      if id in p.cancelling then p.(tasks := SetState(p, id, Failed), cancelling := p.cancelling - {id}) else p
    case Stop => p.(stopped := true)
    case _ => if e.worker < |p.workers| then WorkerStep(p, e, e.worker) else p
  }

  function WorkerStep(p: Pool, e: Event, w: nat): Pool
    requires w < |p.workers|
  {
    match (e, p.workers[w])
    case (Dequeue(_), Idle) =>
      if p.queue == [] then p
      else
        p.(workers := p.workers[w := Fetched(p.queue[0])],
           queue := p.queue[1..],
           executions := p.executions + [p.queue[0]])
    case (Begin(_), Fetched(id)) =>
      p.(workers := p.workers[w := Working(id, 0)], tasks := SetState(p, id, Running))
    case (BeginShard(_), Working(id, n)) =>
      if p.stopped || id !in p.tasks || n >= p.tasks[id].shards then p else p.(workers := p.workers[w := Moving(id, n)])
    case (MoveShard(_), Moving(id, n)) =>
      // With the time passed and the context ended, either may be noticed first.
      if id !in p.tasks then p
      else
        p.(workers := p.workers[w := Working(id, n + 1)],
           tasks := p.tasks[id := p.tasks[id].(moved := n + 1)])
    case (Succeed(_), Working(id, n)) =>
      if id in p.tasks && n == p.tasks[id].shards > 0 then p.(workers := p.workers[w := Finishing(id, true)]) else p
    case (GiveUp(_), Working(id, n)) =>
      if id in p.tasks && (p.tasks[id].shards == 0 || (p.stopped && n < p.tasks[id].shards))
      then p.(workers := p.workers[w := Finishing(id, false)]) else p
    case (GiveUp(_), Moving(id, _)) => if p.stopped then p.(workers := p.workers[w := Finishing(id, false)]) else p
    case (Exit(_), Idle) => if p.stopped then p.(workers := p.workers[w := Exited]) else p
    case (Finish(_), Finishing(id, success)) =>
      p.(workers := p.workers[w := Idle], tasks := SetState(p, id, if success then Completed else Failed))
    case _ => p
  }

  function Run(p: Pool, events: seq<Event>): Pool {
    if events == [] then p
    else Step(Run(p, events[..|events| - 1]), events[|events| - 1])
  }

  lemma RunSnoc(p: Pool, events: seq<Event>, e: Event)
    ensures Run(p, events + [e]) == Step(Run(p, events), e)
  {
    assert (events + [e])[..|events|] == events;
  }

  lemma RunTwoMore(p: Pool, events: seq<Event>, e: Event, f: Event)
    ensures Run(p, events + [e] + [f]) == Step(Step(Run(p, events), e), f)
  {
    RunSnoc(p, events, e);
    RunSnoc(p, events + [e], f);
  }

  lemma RunTwo(p: Pool, e: Event, f: Event)
    ensures Run(p, [e, f]) == Step(Step(p, e), f)
  {
    var one, two := [e], [e, f];
    assert one[..0] == [] && Run(p, one) == Step(p, e);
    assert two[..1] == one;
  }

  lemma {:induction false} RunConcat(p: Pool, a: seq<Event>, b: seq<Event>)
    ensures Run(p, a + b) == Run(Run(p, a), b)
  {
    if b == [] {
      assert a + b == a;
    } else {
      RunConcat(p, a, b[..|b| - 1]);
      assert (a + b)[..|a + b| - 1] == a + b[..|b| - 1];
    }
  }

  // ---------- The operations, undisturbed ----------

  /** Submitting tasks ids[0], ids[1], ... one after the other. */
  function SubmitAll(p: Pool, ids: seq<TaskId>, shards: seq<nat>): Pool
    requires |ids| == |shards|
  {
    if ids == [] then p
    else
      var n := |ids| - 1;
      Step(Step(SubmitAll(p, ids[..n], shards[..n]), Store(ids[n], shards[n])), Enqueue(ids[n]))
  }

  function AsSet(ids: seq<TaskId>): set<TaskId> {
    set id | id in ids
  }

  lemma SubmitOneKeeps(p: Pool, id: TaskId, shards: nat)
    requires p.submitting == {}
    ensures var t := Step(Step(p, Store(id, shards)), Enqueue(id));
            && t.submitting == {} && t.cancelling == p.cancelling && t.executions == p.executions
            && t.workers == p.workers && t.stopped == p.stopped
            && t.tasks.Keys == p.tasks.Keys + {id}
  {
  }

  lemma StoreThenOffer(p: Pool, id: TaskId, shards: nat)
    requires id !in p.tasks && id !in p.submitting
    ensures Step(Step(p, Store(id, shards)), Enqueue(id))
            == if |p.queue| < QUEUE_CAPACITY
               then p.(tasks := p.tasks[id := Task(shards, Pending, 0)], queue := p.queue + [id])
               else p.(tasks := p.tasks[id := Task(shards, Failed, 0)])
  {
    var stored := p.(tasks := p.tasks[id := Task(shards, Pending, 0)], submitting := p.submitting + {id});
    assert Step(p, Store(id, shards)) == stored;
    assert stored.submitting - {id} == p.submitting;
  }

  lemma {:induction false} SubmitAllKeeps(p: Pool, ids: seq<TaskId>, shards: seq<nat>)
    requires |ids| == |shards| && p.submitting == {}
    ensures var t := SubmitAll(p, ids, shards);
            && t.submitting == {} && t.cancelling == p.cancelling && t.executions == p.executions
            && t.workers == p.workers && t.stopped == p.stopped
            && t.tasks.Keys == p.tasks.Keys + AsSet(ids)
  {
    if ids != [] {
      var n := |ids| - 1;
      SubmitAllKeeps(p, ids[..n], shards[..n]);
      SubmitOneKeeps(SubmitAll(p, ids[..n], shards[..n]), ids[n], shards[n]);
      assert ids == ids[..n] + [ids[n]];
      assert AsSet(ids) == AsSet(ids[..n]) + {ids[n]};
    }
  }

  /** The shared data with one worker at work. */
  function WithWorker(p: Pool, w: Worker, stopped: bool): Pool {
    p.(workers := [w], stopped := stopped)
  }

  function Moved(p: Pool, id: TaskId, n: nat): Pool
    requires id in p.tasks
  {
    p.(tasks := p.tasks[id := p.tasks[id].(moved := n)])
  }

  /** The steps of a lone worker that moves n shards. */
  function Moves(n: nat): seq<Event> {
    if n == 0 then [] else Moves(n - 1) + [BeginShard(0)] + [MoveShard(0)]
  }

  lemma LoneWorkerMoves(p: Pool, id: TaskId, n: nat)
    requires id in p.tasks && n < p.tasks[id].shards
    ensures Step(Step(WithWorker(Moved(p, id, n), Working(id, n), false), BeginShard(0)), MoveShard(0))
            == WithWorker(Moved(p, id, n + 1), Working(id, n + 1), false)
  {
    assert Step(WithWorker(Moved(p, id, n), Working(id, n), false), BeginShard(0))
        == WithWorker(Moved(p, id, n), Moving(id, n), false);
  }

  lemma LoneWorkerMovesOneMore(start: Pool, events: seq<Event>, p: Pool, id: TaskId, n: nat)
    requires id in p.tasks && n < p.tasks[id].shards
    requires Run(start, events) == WithWorker(Moved(p, id, n), Working(id, n), false)
    ensures Run(start, events + [BeginShard(0)] + [MoveShard(0)])
            == WithWorker(Moved(p, id, n + 1), Working(id, n + 1), false)
  {
    RunTwoMore(start, events, BeginShard(0), MoveShard(0));
    LoneWorkerMoves(p, id, n);
  }

  lemma NothingMoved(p: Pool, id: TaskId)
    requires id in p.tasks && p.tasks[id].moved == 0
    ensures Moved(p, id, 0) == p
  {
    var task := p.tasks[id];
    assert task.(moved := 0) == task;
    assert p.tasks[id := task] == p.tasks;
  }

  lemma {:induction false} LoneWorkerMovesOn(start: Pool, p: Pool, id: TaskId, n: nat)
    requires id in p.tasks && p.tasks[id].moved == 0 && n <= p.tasks[id].shards
    requires start == WithWorker(p, Working(id, 0), false)
    ensures Run(start, Moves(n)) == WithWorker(Moved(p, id, n), Working(id, n), false)
  {
    if n == 0 {
      NothingMoved(p, id);
    } else {
      LoneWorkerMovesOn(start, p, id, n - 1);
      var before := Moves(n - 1);
      LoneWorkerMovesOneMore(start, before, p, id, n - 1);
      assert Moves(n) == before + [BeginShard(0)] + [MoveShard(0)];
    }
  }

  /** How a lone worker ends: it notices the end of the context, or there is nothing to move, or all is moved. */
  function EndOf(shards: nat, n: nat): seq<Event> {
    if shards == 0 then [GiveUp(0)] else if n < shards then [Stop, GiveUp(0)] else [Succeed(0)]
  }

  lemma LoneWorkerStops(p: Pool, id: TaskId, n: nat)
    requires id in p.tasks && n < p.tasks[id].shards
    ensures Step(Step(WithWorker(p, Working(id, n), false), Stop), GiveUp(0)) == WithWorker(p, Finishing(id, false), true)
  {
    assert Step(WithWorker(p, Working(id, n), false), Stop) == WithWorker(p, Working(id, n), true);
  }

  lemma LoneWorkerIsThrough(p: Pool, id: TaskId, n: nat)
    requires id in p.tasks && n == p.tasks[id].shards
    ensures Step(WithWorker(p, Working(id, n), false), EndOf(n, n)[0]) == WithWorker(p, Finishing(id, n > 0), false)
  {
  }

  lemma LoneWorkerEnds(p: Pool, id: TaskId, n: nat)
    requires id in p.tasks && p.tasks[id].moved == 0 && n <= p.tasks[id].shards
    ensures var shards := p.tasks[id].shards;
            Run(WithWorker(p, Working(id, 0), false), Moves(n) + EndOf(shards, n))
            == WithWorker(Moved(p, id, n), Finishing(id, n == shards > 0), n < shards)
  {
    var start, shards := WithWorker(p, Working(id, 0), false), p.tasks[id].shards;
    var q := Moved(p, id, n);
    LoneWorkerMovesOn(start, p, id, n);
    if n < shards {
      LoneWorkerStops(q, id, n);
      RunSnoc(start, Moves(n), Stop);
      RunSnoc(start, Moves(n) + [Stop], GiveUp(0));
      assert Moves(n) + EndOf(shards, n) == Moves(n) + [Stop] + [GiveUp(0)];
    } else {
      LoneWorkerIsThrough(q, id, n);
      RunSnoc(start, Moves(n), EndOf(n, n)[0]);
      assert EndOf(n, n) == [EndOf(n, n)[0]];
    }
  }

  /** stopped(i) tells whether the context's end was noticed before shard i was moved. */
  ghost predicate RunsThrough(shards: nat, stopped: nat -> bool) {
    shards > 0 && forall i :: 0 <= i < shards ==> !stopped(i)
  }

  /** The tasks named by ids are exactly the active ones, each once, in the order of ids. */
  ghost predicate ListsActive(tasks: map<TaskId, Task>, ids: seq<TaskId>, active: seq<Task>) {
    && (forall id :: id in ids <==> id in tasks && tasks[id].state in {Pending, Running})
    && (forall i, j :: 0 <= i < j < |ids| ==> ids[i] != ids[j])
    && |active| == |ids|
    && forall k :: 0 <= k < |ids| ==> active[k] == tasks[ids[k]]
  }

  ghost predicate NewTasks(p: Pool, ids: seq<TaskId>) {
    forall i :: 0 <= i < |ids| ==> ids[i] !in p.tasks && ids[i] !in ids[..i]
  }

  /** How many of n tasks still find room in the queue of a hundred. */
  function Taken(p: Pool, n: nat): nat {
    var room := if |p.queue| < 100 then 100 - |p.queue| else 0;
    if n < room then n else room
  }

  lemma FrontIsNew(p: Pool, ids: seq<TaskId>)
    requires NewTasks(p, ids) && ids != []
    ensures NewTasks(p, ids[..|ids| - 1]) && ids[|ids| - 1] !in ids[..|ids| - 1]
  {
    var front := ids[..|ids| - 1];
    forall i | 0 <= i < |front| ensures front[i] !in p.tasks && front[i] !in front[..i] {
      assert front[i] == ids[i] && front[..i] == ids[..i];
    }
  }

  /** The last of some submitted tasks is stored and offered to what the others left. */
  lemma LastSubmitted(p: Pool, ids: seq<TaskId>, shards: seq<nat>)
    requires |ids| == |shards| > 0 && p.submitting == {} && NewTasks(p, ids)
    ensures var n := |ids| - 1;
            var q, t := SubmitAll(p, ids[..n], shards[..n]), SubmitAll(p, ids, shards);
            && t.queue == (if |q.queue| < 100 then q.queue + [ids[n]] else q.queue)
            && t.tasks == q.tasks[ids[n] := Task(shards[n], if |q.queue| < 100 then Pending else Failed, 0)]
  {
    var n := |ids| - 1;
    FrontIsNew(p, ids);
    SubmitAllKeeps(p, ids[..n], shards[..n]);
    StoreThenOffer(SubmitAll(p, ids[..n], shards[..n]), ids[n], shards[n]);
  }

  lemma OneMoreTaken(p: Pool, ids: seq<TaskId>)
    requires ids != []
    ensures var n := |ids| - 1;
            && (|p.queue + ids[..n][..Taken(p, n)]| < 100 <==> n < Taken(p, n + 1))
            && p.queue + ids[..Taken(p, n + 1)]
               == if n < Taken(p, n + 1) then p.queue + ids[..n][..Taken(p, n)] + [ids[n]] else p.queue + ids[..n][..Taken(p, n)]
  {
    var n := |ids| - 1;
    if n < Taken(p, n + 1) {
      assert ids[..n][..n] == ids[..n] && ids[..n + 1] == ids[..n] + [ids[n]];
    } else {
      assert ids[..n][..Taken(p, n)] == ids[..Taken(p, n + 1)];
    }
  }

  lemma {:induction false} SubmittedQueue(p: Pool, ids: seq<TaskId>, shards: seq<nat>)
    requires |ids| == |shards| && p.submitting == {} && NewTasks(p, ids)
    ensures SubmitAll(p, ids, shards).queue == p.queue + ids[..Taken(p, |ids|)]
  {
    if ids != [] {
      var n := |ids| - 1;
      FrontIsNew(p, ids);
      SubmittedQueue(p, ids[..n], shards[..n]);
      LastSubmitted(p, ids, shards);
      OneMoreTaken(p, ids);
    }
  }

  lemma {:induction false} SubmittedTask(p: Pool, ids: seq<TaskId>, shards: seq<nat>, i: nat)
    requires |ids| == |shards| && p.submitting == {} && NewTasks(p, ids) && i < |ids|
    ensures var t := SubmitAll(p, ids, shards);
            ids[i] in t.tasks && t.tasks[ids[i]] == Task(shards[i], if i < Taken(p, |ids|) then Pending else Failed, 0)
  {
    var n := |ids| - 1;
    FrontIsNew(p, ids);
    LastSubmitted(p, ids, shards);
    if i < n {
      var front := ids[..n];
      assert front[i] == ids[i] && shards[..n][i] == shards[i];
      SubmittedTask(p, front, shards[..n], i);
      assert ids[n] !in front && ids[i] in front;
    } else {
      SubmittedQueue(p, ids[..n], shards[..n]);
      OneMoreTaken(p, ids);
    }
  }

  lemma {:induction false} SubmittingKeepsOthers(p: Pool, ids: seq<TaskId>, shards: seq<nat>)
    requires |ids| == |shards| && p.submitting == {} && NewTasks(p, ids)
    ensures forall id :: id in p.tasks ==> id in SubmitAll(p, ids, shards).tasks && SubmitAll(p, ids, shards).tasks[id] == p.tasks[id]
  {
    if ids != [] {
      FrontIsNew(p, ids);
      LastSubmitted(p, ids, shards);
      SubmittingKeepsOthers(p, ids[..|ids| - 1], shards[..|ids| - 1]);
    }
  }

  /**
   What submitting leaves: every task is recorded under its identifier, those that found room in
   the queue of a hundred are pending and queued in order, the others have failed.
   */
  lemma SubmittedTasks(p: Pool, ids: seq<TaskId>, shards: seq<nat>)
    requires |ids| == |shards| && p.submitting == {} && NewTasks(p, ids)
    ensures var t := SubmitAll(p, ids, shards);
            && t.queue == p.queue + ids[..Taken(p, |ids|)]
            && (forall i :: 0 <= i < |ids| ==>
                  ids[i] in t.tasks && t.tasks[ids[i]] == Task(shards[i], if i < Taken(p, |ids|) then Pending else Failed, 0))
            && t.tasks.Keys == p.tasks.Keys + AsSet(ids)
            && forall id :: id in p.tasks ==> t.tasks[id] == p.tasks[id]
  {
    SubmittedQueue(p, ids, shards);
    SubmitAllKeeps(p, ids, shards);
    SubmittingKeepsOthers(p, ids, shards);
    forall i | 0 <= i < |ids|
      ensures var t := SubmitAll(p, ids, shards);
              ids[i] in t.tasks && t.tasks[ids[i]] == Task(shards[i], if i < Taken(p, |ids|) then Pending else Failed, 0)
    {
      SubmittedTask(p, ids, shards, i);
    }
  }

  class Migrator {
    const maxConcurrent: int
    var tasks: map<TaskId, Task>
    var pendingTasks: seq<TaskId>

    constructor (maxConcurrent: int)
      ensures this.maxConcurrent == if maxConcurrent <= 0 then 5 else maxConcurrent
      ensures Contents() == Start(0)
    {
      this.maxConcurrent := if maxConcurrent <= 0 then 5 else maxConcurrent;
      tasks, pendingTasks := map[], [];
    }

    /** The shared data, with no one in the middle of anything. */
    function Contents(): Pool
      reads this
    {
      Pool(tasks, {}, pendingTasks, [], {}, [], false)
    }

    /** ids are the fresh identifiers the tasks are given. */
    method SubmitTasks(ids: seq<TaskId>, shards: seq<nat>)
      requires |ids| == |shards|
      requires NewTasks(Contents(), ids)
      modifies this
      ensures Contents() == SubmitAll(old(Contents()), ids, shards)
      ensures var taken := Taken(old(Contents()), |ids|);
              && pendingTasks == old(pendingTasks) + ids[..taken]
              && (forall i :: 0 <= i < |ids| ==>
                    ids[i] in tasks && tasks[ids[i]] == Task(shards[i], if i < taken then Pending else Failed, 0))
              && tasks.Keys == old(tasks).Keys + AsSet(ids)
              && forall id :: id in old(tasks) ==> tasks[id] == old(tasks)[id]
    {
      for i := 0 to |ids|
        invariant Contents() == SubmitAll(old(Contents()), ids[..i], shards[..i])
      {
        assert ids[..i + 1][..i] == ids[..i] && shards[..i + 1][..i] == shards[..i];
        SubmitAllKeeps(old(Contents()), ids[..i], shards[..i]);
        ghost var before := Contents();
        var task := Task(shards[i], Pending, 0);
        tasks := tasks[ids[i] := task];
        if |pendingTasks| < QUEUE_CAPACITY {
          pendingTasks := pendingTasks + [ids[i]];
        } else {
          tasks := tasks[ids[i] := task.(state := Failed)];
        }
        StoreThenOffer(before, ids[i], shards[i]);
      }
      assert ids[..|ids|] == ids && shards[..|ids|] == shards;
      SubmittedTasks(old(Contents()), ids, shards);
    }

    method CancelTask(id: TaskId) returns (ok: bool)
      modifies this`tasks
      ensures ok <==> id in old(tasks) && old(tasks)[id].state in {Pending, Running}
      ensures tasks == if ok then old(tasks)[id := old(tasks)[id].(state := Failed)] else old(tasks)
      ensures Contents() == Step(Step(old(Contents()), CancelCheck(id)), CancelWrite(id))
      ensures ok ==> tasks[id].state == Failed
    {
      if id !in tasks {
        return false;
      }
      var task := tasks[id];
      if task.state != Pending && task.state != Running {
        return false;
      }
      tasks := tasks[id := task.(state := Failed)];
      return true;
    }

    /** The map is visited in any order. */
    method GetAllActiveTasks() returns (active: seq<Task>)
      ensures exists ids :: ListsActive(tasks, ids, active)
    {
      active := [];
      ghost var ids: seq<TaskId> := [];
      var pending := tasks.Keys;
      while pending != {}
        invariant pending <= tasks.Keys
        invariant forall id :: id in ids <==> id in tasks && id !in pending && Active(tasks[id])
        invariant forall i, j :: 0 <= i < j < |ids| ==> ids[i] != ids[j]
        invariant |active| == |ids| && forall k :: 0 <= k < |ids| ==> ids[k] in tasks && active[k] == tasks[ids[k]]
        decreases |pending|
      {
        var id :| id in pending;
        pending := pending - {id};
        if tasks[id].state == Pending || tasks[id].state == Running {
          active := active + [tasks[id]];
          ids := ids + [id];
        }
      }
      assert ListsActive(tasks, ids, active);
    }

    /**
     Undisturbed, a task is completed exactly if it has shards and the context outlasts them all;
     and what happens is what the pool's steps make of its one worker.
     */
    method ProcessTask(id: TaskId, stopped: nat -> bool) returns (ghost events: seq<Event>)
      requires id in tasks && tasks[id].moved == 0
      modifies this`tasks
      ensures tasks.Keys == old(tasks).Keys
      ensures forall other :: other in tasks && other != id ==> tasks[other] == old(tasks)[other]
      ensures tasks[id].shards == old(tasks)[id].shards
      ensures tasks[id].state ==
              if tasks[id].shards > 0 && (forall i :: 0 <= i < tasks[id].shards ==> !stopped(i)) then Completed else Failed
      ensures tasks[id].state == Completed ==> tasks[id].moved == tasks[id].shards
      ensures Run(WithWorker(old(Contents()), Fetched(id), false), events)
              == WithWorker(Contents(), Idle, tasks[id].shards > 0 && tasks[id].state == Failed)
    {
      ghost var before := WithWorker(Contents(), Fetched(id), false);
      tasks := tasks[id := tasks[id].(state := Running)];
      RunSnoc(before, [], Begin(0));
      assert Step(before, Begin(0)) == WithWorker(Contents(), Working(id, 0), false);
      var success;
      ghost var moves: seq<Event>;
      success, moves := ExecuteMigration(id, stopped);
      RunConcat(before, [Begin(0)], moves);
      assert [] + [Begin(0)] == [Begin(0)];
      ghost var after := WithWorker(Contents(), Finishing(id, success), tasks[id].shards > 0 && !success);
      tasks := tasks[id := tasks[id].(state := if success then Completed else Failed)];
      assert Step(after, Finish(0)) == WithWorker(Contents(), Idle, after.stopped);
      events := [Begin(0)] + moves + [Finish(0)];
      RunSnoc(before, [Begin(0)] + moves, Finish(0));
    }

    method ExecuteMigration(id: TaskId, stopped: nat -> bool) returns (success: bool, ghost events: seq<Event>)
      requires id in tasks && tasks[id].moved == 0
      modifies this`tasks
      ensures id in tasks && tasks == old(tasks)[id := old(tasks)[id].(moved := tasks[id].moved)]
      ensures success == RunsThrough(old(tasks)[id].shards, stopped)
      ensures success ==> tasks[id].moved == tasks[id].shards
      ensures Run(WithWorker(old(Contents()), Working(id, 0), false), events)
              == WithWorker(Contents(), Finishing(id, success), tasks[id].shards > 0 && !success)
    {
      var total := tasks[id].shards;
      ghost var before := Contents();
      if total == 0 {
        LoneWorkerEnds(before, id, 0);
        assert Moved(before, id, 0) == before;
        return false, Moves(0) + EndOf(0, 0);
      }
      assert Moved(before, id, 0) == before;
      for i := 0 to total
        invariant Contents() == Moved(before, id, i)
        invariant forall k :: 0 <= k < i ==> !stopped(k)
      {
        if stopped(i) {
          LoneWorkerEnds(before, id, i);
          return false, Moves(i) + EndOf(total, i);
        }
        tasks := tasks[id := tasks[id].(moved := i + 1)];
      }
      LoneWorkerEnds(before, id, total);
      return true, Moves(total) + EndOf(total, total);
    }
  }

  // ---------- Invariants of every interleaving ----------

  predicate Busy(w: Worker) {
    !w.Idle? && !w.Exited?
  }

  predicate Holds(w: Worker, id: TaskId) {
    Busy(w) && w.task == id
  }

  ghost predicate Held(p: Pool, id: TaskId) {
    exists w :: 0 <= w < |p.workers| && Holds(p.workers[w], id)
  }

  /** Where an unfinished task can be. */
  ghost predicate Placed(p: Pool, id: TaskId) {
    id in p.submitting || id in p.queue || Held(p, id)
  }

  ghost predicate NoRepeats(ids: seq<TaskId>) {
    forall i, j :: 0 <= i < j < |ids| ==> ids[i] != ids[j]
  }

  /** No task is in two places, and a task that left the queue never returns to it. */
  ghost predicate Placement(p: Pool) {
    && |p.queue| <= QUEUE_CAPACITY
    && NoRepeats(p.queue) && NoRepeats(p.executions)
    && (forall id :: id in p.submitting ==> id in p.tasks && id !in p.queue && id !in p.executions)
    && (forall id :: id in p.queue ==> id in p.tasks && id !in p.executions)
    && (forall id :: id in p.executions ==> id in p.tasks)
    && (forall w :: 0 <= w < |p.workers| && Busy(p.workers[w]) ==> p.workers[w].task in p.executions)
    && forall v, w :: 0 <= v < w < |p.workers| && Busy(p.workers[v]) && Busy(p.workers[w]) ==>
         p.workers[v].task != p.workers[w].task
  }

  ghost predicate WorkerConsistent(p: Pool, w: Worker) {
    match w
    case Idle => true
    case Fetched(id) => id in p.tasks && p.tasks[id].moved == 0
    case Working(id, n) => id in p.tasks && p.tasks[id].moved == n <= p.tasks[id].shards
    case Moving(id, n) => id in p.tasks && p.tasks[id].moved == n < p.tasks[id].shards
    case Finishing(id, success) => id in p.tasks && (success ==> AllMoved(p.tasks[id]))
    case Exited => true
  }

  predicate AllMoved(t: Task) {
    t.moved == t.shards > 0
  }

  ghost predicate WorkersConsistent(p: Pool) {
    && (forall w :: 0 <= w < |p.workers| ==> WorkerConsistent(p, p.workers[w]))
    && (forall id :: id in p.tasks && id !in p.executions ==> p.tasks[id].moved == 0)
  }

  ghost predicate CompletedAreMoved(p: Pool) {
    forall id :: id in p.tasks && p.tasks[id].state == Completed ==> AllMoved(p.tasks[id])
  }

  /** Nothing is pending or running without being somewhere. */
  ghost predicate ActiveArePlaced(p: Pool) {
    forall id :: id in p.tasks && Active(p.tasks[id]) ==> Placed(p, id)
  }

  ghost predicate Inv(p: Pool) {
    Placement(p) && WorkersConsistent(p) && CompletedAreMoved(p) && ActiveArePlaced(p)
  }

  lemma StepKeepsPlacement(p: Pool, e: Event)
    requires Placement(p)
    ensures Placement(Step(p, e)) && |Step(p, e).workers| == |p.workers|
  {
    match e {
      case Store(_, _) =>
      case Enqueue(_) =>
      case CancelCheck(_) =>
      case CancelWrite(_) =>
      case Stop =>
      case _ =>
        if e.worker < |p.workers| {
          WorkerStepKeepsPlacement(p, e, e.worker);
        }
    }
  }

  lemma WorkerStepKeepsPlacement(p: Pool, e: Event, w: nat)
    requires Placement(p) && w < |p.workers|
    ensures Placement(WorkerStep(p, e, w)) && |WorkerStep(p, e, w).workers| == |p.workers|
  {
    if e.Dequeue? && p.workers[w].Idle? && p.queue != [] {
      TakingKeepsPlacement(p, e, w);
    } else {
      WorkingOnKeepsPlacement(p, e, w);
    }
  }

  lemma TakingKeepsPlacement(p: Pool, e: Event, w: nat)
    requires Placement(p) && w < |p.workers| && e.Dequeue? && p.workers[w].Idle? && p.queue != []
    ensures Placement(WorkerStep(p, e, w))
  {
    var t := WorkerStep(p, e, w);
    assert p.queue == [p.queue[0]] + t.queue && p.queue[0] in p.queue;
    assert forall id :: id in t.queue ==> id in p.queue && id != p.queue[0];
  }

  /** Without taking a task, a worker keeps the one it has or none. */
  lemma WorkingOnKeepsPlacement(p: Pool, e: Event, w: nat)
    requires Placement(p) && w < |p.workers| && !(e.Dequeue? && p.workers[w].Idle? && p.queue != [])
    ensures Placement(WorkerStep(p, e, w))
  {
    var t := WorkerStep(p, e, w);
    assert Busy(t.workers[w]) ==> Busy(p.workers[w]) && t.workers[w].task == p.workers[w].task;
    assert t.queue == p.queue && t.submitting == p.submitting && t.executions == p.executions;
    assert t.tasks.Keys == p.tasks.Keys;
  }

  predicate ByWorker(e: Event) {
    !(e.Store? || e.Enqueue? || e.CancelCheck? || e.CancelWrite? || e.Stop?)
  }

  /** Submitting, cancelling and stopping leave the workers, and what is moved, as they are. */
  lemma OthersLeaveWorkers(p: Pool, e: Event)
    requires !ByWorker(e)
    ensures var t := Step(p, e);
            && t.workers == p.workers && t.executions == p.executions
            && (forall id :: id in p.tasks ==>
                  id in t.tasks && t.tasks[id].moved == p.tasks[id].moved && t.tasks[id].shards == p.tasks[id].shards)
            && forall id :: id in t.tasks && id !in p.tasks ==> t.tasks[id].moved == 0
  {
  }

  lemma StepKeepsWorkersConsistent(p: Pool, e: Event)
    requires Placement(p) && WorkersConsistent(p)
    ensures WorkersConsistent(Step(p, e))
  {
    if !ByWorker(e) {
      OthersLeaveWorkers(p, e);
      SameWorkersConsistent(p, Step(p, e));
    } else if e.worker < |p.workers| {
      WorkerStepKeepsConsistent(p, e, e.worker);
    }
  }

  lemma SameWorkersConsistent(p: Pool, t: Pool)
    requires WorkersConsistent(p) && t.workers == p.workers && t.executions == p.executions
    requires forall id :: id in p.tasks ==>
               id in t.tasks && t.tasks[id].moved == p.tasks[id].moved && t.tasks[id].shards == p.tasks[id].shards
    requires forall id :: id in t.tasks && id !in p.tasks ==> t.tasks[id].moved == 0
    ensures WorkersConsistent(t)
  {
    forall w | 0 <= w < |t.workers| ensures WorkerConsistent(t, t.workers[w]) {
      assert WorkerConsistent(p, p.workers[w]);
    }
  }

  lemma WorkerStepKeepsConsistent(p: Pool, e: Event, w: nat)
    requires Placement(p) && WorkersConsistent(p) && w < |p.workers|
    ensures WorkersConsistent(WorkerStep(p, e, w))
  {
    assert p.queue != [] ==> p.queue[0] in p.queue;
  }

  lemma StepKeepsCompletedMoved(p: Pool, e: Event)
    requires Placement(p) && WorkersConsistent(p) && CompletedAreMoved(p)
    ensures CompletedAreMoved(Step(p, e))
  {
  }

  lemma StepKeepsActivePlaced(p: Pool, e: Event)
    requires Placement(p) && WorkersConsistent(p) && ActiveArePlaced(p)
    ensures ActiveArePlaced(Step(p, e))
  {
    var t := Step(p, e);
    forall id | id in t.tasks && Active(t.tasks[id]) ensures Placed(t, id) {
      if Placed(p, id) {
        MovesOn(p, e, id);
      }
    }
  }

  /** A worker that holds a task keeps it until it has finished it. */
  lemma HeldMovesOn(p: Pool, e: Event, id: TaskId, w: nat)
    requires w < |p.workers| && Holds(p.workers[w], id)
    ensures var t := Step(p, e);
            |t.workers| == |p.workers| &&
            (Holds(t.workers[w], id) || (id in t.tasks ==> !Active(t.tasks[id])))
  {
  }

  lemma QueuedMovesOn(p: Pool, e: Event, id: TaskId)
    requires id in p.queue
    ensures Placed(Step(p, e), id)
  {
    var t := Step(p, e);
    if t.queue != p.queue && e.Dequeue? {
      assert p.queue == [p.queue[0]] + t.queue;
      assert Holds(t.workers[e.worker], p.queue[0]);
    }
  }

  /** A placed task moves along; it leaves only by being finished or rejected, and then it is not active. */
  lemma MovesOn(p: Pool, e: Event, id: TaskId)
    requires Placement(p) && Placed(p, id)
    ensures var t := Step(p, e); id in t.tasks ==> Placed(t, id) || !Active(t.tasks[id])
  {
    var t := Step(p, e);
    if Held(p, id) {
      var w :| 0 <= w < |p.workers| && Holds(p.workers[w], id);
      HeldMovesOn(p, e, id, w);
    } else if id in p.queue {
      QueuedMovesOn(p, e, id);
    }
  }

  lemma {:induction false} RunKeepsInv(maxConcurrent: nat, events: seq<Event>)
    ensures Inv(Run(Start(maxConcurrent), events)) && |Run(Start(maxConcurrent), events).workers| == maxConcurrent
  {
    if events != [] {
      var front, last := events[..|events| - 1], events[|events| - 1];
      var p := Run(Start(maxConcurrent), front);
      RunKeepsInv(maxConcurrent, front);
      StepKeepsPlacement(p, last);
      StepKeepsWorkersConsistent(p, last);
      StepKeepsCompletedMoved(p, last);
      StepKeepsActivePlaced(p, last);
    }
  }

  // ---------- What every run guarantees ----------

  /** Each task is executed at most once, no two workers hold the same task, and completed means moved. */
  lemma ExecutedAtMostOnce(maxConcurrent: nat, events: seq<Event>)
    ensures var p := Run(Start(maxConcurrent), events);
            && NoRepeats(p.executions)
            && (forall id :: id in p.tasks && p.tasks[id].state == Completed ==> AllMoved(p.tasks[id]))
            && forall v, w :: 0 <= v < w < |p.workers| && Busy(p.workers[v]) && Busy(p.workers[w]) ==>
                 p.workers[v].task != p.workers[w].task
  {
    RunKeepsInv(maxConcurrent, events);
  }

  /** Tasks leave the queue in the order they entered it: whatever happens, the executed and then the queued only grow at the end. */
  lemma {:induction false} QueueIsFifo(p: Pool, more: seq<Event>)
    ensures p.executions + p.queue <= Run(p, more).executions + Run(p, more).queue
    ensures p.executions <= Run(p, more).executions
  {
    if more != [] {
      var front, last := more[..|more| - 1], more[|more| - 1];
      QueueIsFifo(p, front);
      StepIsFifo(Run(p, front), last);
    }
  }

  lemma StepIsFifo(p: Pool, e: Event)
    ensures p.executions + p.queue <= Step(p, e).executions + Step(p, e).queue
    ensures p.executions <= Step(p, e).executions
  {
    if e.Dequeue? && p.queue != [] {
      assert p.executions + p.queue == p.executions + [p.queue[0]] + p.queue[1..];
    }
  }

  function ActiveIds(p: Pool): set<TaskId> {
    set id | id in p.tasks && Active(p.tasks[id])
  }

  function HeldIds(workers: seq<Worker>): set<TaskId> {
    if workers == [] then {}
    else
      var last := workers[|workers| - 1];
      HeldIds(workers[..|workers| - 1]) + if Busy(last) then {last.task} else {}
  }

  lemma {:induction false} HeldIdsAreFew(workers: seq<Worker>)
    ensures |HeldIds(workers)| <= |workers|
    ensures forall w :: 0 <= w < |workers| && Busy(workers[w]) ==> workers[w].task in HeldIds(workers)
  {
    if workers != [] {
      HeldIdsAreFew(workers[..|workers| - 1]);
    }
  }

  lemma {:induction false} SetOfSeqIsSmall(ids: seq<TaskId>)
    ensures |AsSet(ids)| <= |ids|
  {
    if ids != [] {
      var front, last := ids[..|ids| - 1], ids[|ids| - 1];
      assert ids == front + [last];
      SetOfSeqIsSmall(front);
      assert AsSet(ids) == AsSet(front) + {last};
    }
  }

  lemma SubsetIsSmaller(a: set<TaskId>, b: set<TaskId>)
    requires a <= b
    ensures |a| <= |b|
  {
    assert b == a + (b - a);
  }

  /** Pending and running tasks: at most the queue, the workers, and the submissions in progress. */
  lemma ActiveTasksAreBounded(maxConcurrent: nat, events: seq<Event>)
    ensures var p := Run(Start(maxConcurrent), events);
            |ActiveIds(p)| <= QUEUE_CAPACITY + maxConcurrent + |p.submitting|
  {
    var p := Run(Start(maxConcurrent), events);
    RunKeepsInv(maxConcurrent, events);
    HeldIdsAreFew(p.workers);
    SetOfSeqIsSmall(p.queue);
    var places := p.submitting + AsSet(p.queue) + HeldIds(p.workers);
    assert ActiveIds(p) <= places;
    SubsetIsSmaller(ActiveIds(p), places);
  }

  ghost predicate Settled(p: Pool, id: TaskId) {
    id in p.tasks && !Placed(p, id)
  }

  /** A task no worker holds and that is not in the queue is not taken up by any. */
  lemma SettledIsNotTaken(p: Pool, e: Event, id: TaskId)
    requires Settled(p, id)
    ensures Settled(Step(p, e), id)
  {
    var t := Step(p, e);
    assert p.queue != [] ==> p.queue[0] in p.queue;
    forall w | 0 <= w < |t.workers| ensures !Holds(t.workers[w], id) {
      assert !Holds(p.workers[w], id);
    }
  }

  lemma StepKeepsSettled(p: Pool, e: Event, id: TaskId)
    requires Placement(p) && Settled(p, id)
    ensures Settled(Step(p, e), id)
    ensures id !in p.cancelling && !Active(p.tasks[id]) ==>
              id !in Step(p, e).cancelling && Step(p, e).tasks[id] == p.tasks[id]
  {
    SettledIsNotTaken(p, e, id);
    assert forall w :: 0 <= w < |p.workers| ==> !Holds(p.workers[w], id);
  }

  lemma {:induction false} SettledStays(maxConcurrent: nat, events: seq<Event>, more: seq<Event>, id: TaskId)
    requires Settled(Run(Start(maxConcurrent), events), id) && !Active(Run(Start(maxConcurrent), events).tasks[id])
    ensures var p, t := Run(Start(maxConcurrent), events), Run(Start(maxConcurrent), events + more);
            && Settled(t, id)
            && (id !in p.cancelling ==> id !in t.cancelling && t.tasks[id] == p.tasks[id])
    decreases |more|
  {
    if more == [] {
      assert events + more == events;
    } else {
      var front, last := more[..|more| - 1], more[|more| - 1];
      var mid := Run(Start(maxConcurrent), events + front);
      SettledStays(maxConcurrent, events, front, id);
      assert events + more == events + front + [last];
      RunSnoc(Start(maxConcurrent), events + front, last);
      RunKeepsInv(maxConcurrent, events + front);
      StepKeepsSettled(mid, last, id);
    }
  }

  lemma SettledIsOver(p: Pool, id: TaskId)
    requires Inv(p) && Settled(p, id)
    ensures p.tasks[id].state in {Completed, Failed}
  {
    assert !Active(p.tasks[id]);
  }

  /**
   A task that is neither being submitted nor queued nor held is completed or failed, and stays
   so whatever happens next; unless a cancel had found it active before, it does not change at all.
   */
  lemma SettledForever(maxConcurrent: nat, events: seq<Event>, more: seq<Event>, id: TaskId)
    requires Settled(Run(Start(maxConcurrent), events), id)
    ensures var p, t := Run(Start(maxConcurrent), events), Run(Start(maxConcurrent), events + more);
            && Settled(t, id) && t.tasks[id].state in {Completed, Failed}
            && (id !in p.cancelling ==> id !in t.cancelling && t.tasks[id] == p.tasks[id])
  {
    RunKeepsInv(maxConcurrent, events);
    SettledIsOver(Run(Start(maxConcurrent), events), id);
    SettledStays(maxConcurrent, events, more, id);
    RunKeepsInv(maxConcurrent, events + more);
    SettledIsOver(Run(Start(maxConcurrent), events + more), id);
  }

  // ---------- When a cancel is final ----------

  ghost predicate IsFailed(p: Pool, id: TaskId) {
    id in p.tasks && p.tasks[id].state == Failed
  }

  /** What this worker is about to do can still write another state over a failed task. */
  predicate Revives(p: Pool, w: Worker, id: TaskId)
    requires id in p.tasks
  {
    match w
    case Fetched(task) => task == id
    case Working(task, n) => task == id && p.tasks[id].shards > 0 && (!p.stopped || n == p.tasks[id].shards)
    case Moving(task, n) => task == id && (!p.stopped || n + 1 == p.tasks[id].shards)
    case Finishing(task, success) => task == id && success
    case _ => false
  }

  ghost predicate SomeWorkerLeft(p: Pool) {
    exists w :: 0 <= w < |p.workers| && !p.workers[w].Exited?
  }

  /** The task is still on its way to a worker, or with one that can carry it on. */
  ghost predicate Revivable(p: Pool, id: TaskId)
    requires id in p.tasks
  {
    || ((id in p.submitting || id in p.queue) && SomeWorkerLeft(p))
    || exists w :: 0 <= w < |p.workers| && Revives(p, p.workers[w], id)
  }

  /** The worker that moves does not turn to the task, nor does anything change for the others. */
  lemma WorkerStepKeepsFinal(p: Pool, e: Event, w: nat, id: TaskId)
    requires Placement(p) && WorkersConsistent(p) && IsFailed(p, id) && !Revivable(p, id) && w < |p.workers|
    ensures var t := WorkerStep(p, e, w);
            && IsFailed(t, id)
            && !Revives(t, t.workers[w], id)
            && (p.workers[w].Exited? ==> t.workers[w].Exited?)
            && t.stopped == p.stopped && t.tasks[id].shards == p.tasks[id].shards
  {
    assert p.queue != [] ==> p.queue[0] in p.queue;
    assert !Revives(p, p.workers[w], id) && WorkerConsistent(p, p.workers[w]);
  }

  lemma WorkerStepIsLocal(p: Pool, e: Event, w: nat)
    requires w < |p.workers|
    ensures var t := WorkerStep(p, e, w);
            && |t.workers| == |p.workers|
            && (forall v :: 0 <= v < |p.workers| && v != w ==> t.workers[v] == p.workers[v])
            && t.submitting == p.submitting && (forall id :: id in t.queue ==> id in p.queue)
  {
  }

  lemma WorkersKeepFinal(p: Pool, e: Event, w: nat, id: TaskId)
    requires Placement(p) && WorkersConsistent(p) && IsFailed(p, id) && !Revivable(p, id) && w < |p.workers|
    ensures var t := WorkerStep(p, e, w); IsFailed(t, id) && !Revivable(t, id)
  {
    var t := WorkerStep(p, e, w);
    WorkerStepKeepsFinal(p, e, w, id);
    WorkerStepIsLocal(p, e, w);
    forall v | 0 <= v < |p.workers| ensures !Revives(t, t.workers[v], id) && (p.workers[v].Exited? ==> t.workers[v].Exited?) {
      assert !Revives(p, p.workers[v], id);
    }
  }

  lemma OthersKeepFinal(p: Pool, e: Event, id: TaskId)
    requires IsFailed(p, id) && !Revivable(p, id)
    requires e.Store? || e.Enqueue? || e.CancelCheck? || e.CancelWrite? || e.Stop?
    ensures IsFailed(Step(p, e), id) && !Revivable(Step(p, e), id)
  {
    var t := Step(p, e);
    assert t.workers == p.workers;
    forall w | 0 <= w < |p.workers| ensures !Revives(t, t.workers[w], id) {
      assert !Revives(p, p.workers[w], id);
    }
  }

  lemma StepKeepsFinal(p: Pool, e: Event, id: TaskId)
    requires Placement(p) && WorkersConsistent(p) && IsFailed(p, id) && !Revivable(p, id)
    ensures IsFailed(Step(p, e), id) && !Revivable(Step(p, e), id)
  {
    if e.Store? || e.Enqueue? || e.CancelCheck? || e.CancelWrite? || e.Stop? {
      OthersKeepFinal(p, e, id);
    } else if e.worker < |p.workers| {
      WorkersKeepFinal(p, e, e.worker, id);
    }
  }

  lemma {:induction false} FinalStays(p: Pool, more: seq<Event>, id: TaskId)
    requires Placement(p) && WorkersConsistent(p) && IsFailed(p, id) && !Revivable(p, id)
    ensures Placement(Run(p, more)) && WorkersConsistent(Run(p, more))
    ensures IsFailed(Run(p, more), id) && !Revivable(Run(p, more), id)
  {
    if more != [] {
      var front, last := more[..|more| - 1], more[|more| - 1];
      FinalStays(p, front, id);
      StepKeepsPlacement(Run(p, front), last);
      StepKeepsWorkersConsistent(Run(p, front), last);
      StepKeepsFinal(Run(p, front), last, id);
    }
  }

  ghost predicate MayRevive(p: Pool, id: TaskId) {
    exists more :: !IsFailed(Run(p, more), id)
  }

  lemma OneStepEarlier(p: Pool, e: Event, id: TaskId)
    requires MayRevive(Step(p, e), id)
    ensures MayRevive(p, id)
  {
    var more :| !IsFailed(Run(Step(p, e), more), id);
    RunSnoc(p, [], e);
    assert [] + [e] == [e];
    RunConcat(p, [e], more);
    assert !IsFailed(Run(p, [e] + more), id);
  }

  /** How far a worker is from being idle. */
  function Rank(p: Pool, w: Worker): nat {
    match w
    case Fetched(_) => 4
    case Moving(_, _) => 3
    case Working(_, _) => 2
    case Finishing(_, _) => 1
    case _ => 0
  }

  function ShardsLeft(p: Pool, w: Worker): int {
    match w
    case Working(id, n) => if id in p.tasks then 2 * (p.tasks[id].shards - n) + 1 else 0
    case Moving(id, n) => if id in p.tasks then 2 * (p.tasks[id].shards - n) else 0
    case _ => 0
  }

  /** A worker that can carry the task on does so when left alone. */
  lemma {:induction false} WorkerRevives(p: Pool, w: nat, id: TaskId)
    requires Placement(p) && WorkersConsistent(p) && id in p.tasks
    requires w < |p.workers| && Revives(p, p.workers[w], id)
    ensures MayRevive(p, id)
    decreases ShardsLeft(p, p.workers[w])
  {
    assert WorkerConsistent(p, p.workers[w]);
    var e := match p.workers[w]
      case Fetched(_) => Begin(w)
      case Working(_, n) => if n == p.tasks[id].shards then Succeed(w) else BeginShard(w)
      case Moving(_, _) => MoveShard(w)
      case _ => Finish(w);
    var t := Step(p, e);
    if e.Begin? || e.Finish? {
      assert !IsFailed(Run(t, []), id);
    } else {
      StepKeepsPlacement(p, e);
      StepKeepsWorkersConsistent(p, e);
      WorkerRevives(t, w, id);
    }
    OneStepEarlier(p, e, id);
  }

  /** The next step that brings a worker closer to taking a task from the queue, stopping the pool if need be. */
  function Onward(p: Pool, w: nat): Event
    requires w < |p.workers|
  {
    match p.workers[w]
    case Fetched(_) => Begin(w)
    case Working(id, n) =>
      if id in p.tasks && n == p.tasks[id].shards > 0 then Succeed(w)
      else if p.stopped || (id in p.tasks && p.tasks[id].shards == 0) then GiveUp(w)
      else Stop
    case Moving(_, _) => if p.stopped then GiveUp(w) else Stop
    case Finishing(_, _) => Finish(w)
    case _ => Dequeue(w)
  }

  ghost predicate Waiting(p: Pool, id: TaskId) {
    id in p.submitting || id in p.queue
  }

  function OnwardFor(p: Pool, w: nat, id: TaskId): Event
    requires w < |p.workers|
  {
    if id in p.submitting && |p.queue| < QUEUE_CAPACITY then Enqueue(id) else Onward(p, w)
  }

  /** The step hands the task to the worker, or leaves it waiting and things closer to that. */
  lemma OnwardGetsCloser(p: Pool, w: nat, id: TaskId)
    requires Placement(p) && WorkersConsistent(p) && Waiting(p, id)
    requires w < |p.workers| && !p.workers[w].Exited?
    ensures var t := Step(p, OnwardFor(p, w, id));
            && w < |t.workers|
            && (t.workers[w] == Fetched(id) ||
                (&& Waiting(t, id) && !t.workers[w].Exited?
                 && (id in t.submitting ==> id in p.submitting)
                 && ((id in p.submitting && id !in t.submitting)
                     || |t.queue| < |p.queue|
                     || (|t.queue| == |p.queue| && Rank(t, t.workers[w]) < Rank(p, p.workers[w]))
                     || (|t.queue| == |p.queue| && Rank(t, t.workers[w]) == Rank(p, p.workers[w]) && !p.stopped && t.stopped))))
  {
    var e := OnwardFor(p, w, id);
    var t := Step(p, e);
    assert WorkerConsistent(p, p.workers[w]);
    if e == Dequeue(w) {
      assert p.queue == [p.queue[0]] + t.queue;
    }
  }

  /** A task on its way to the workers reaches one, as long as one is left. */
  lemma {:induction false} WaitingMayRevive(p: Pool, w: nat, id: TaskId)
    requires Placement(p) && WorkersConsistent(p) && Waiting(p, id)
    requires w < |p.workers| && !p.workers[w].Exited?
    ensures MayRevive(p, id)
    decreases id in p.submitting, |p.queue|, Rank(p, p.workers[w]), !p.stopped
  {
    var e := OnwardFor(p, w, id);
    var t := Step(p, e);
    StepKeepsPlacement(p, e);
    StepKeepsWorkersConsistent(p, e);
    OnwardGetsCloser(p, w, id);
    if t.workers[w] == Fetched(id) {
      assert WorkerConsistent(t, t.workers[w]);
      WorkerRevives(t, w, id);
    } else {
      WaitingMayRevive(t, w, id);
    }
    OneStepEarlier(p, e, id);
  }

  /**
   In every reachable pool, a failed task - by a cancel, a full queue or an ended context - stays
   failed whatever happens exactly if it is not on its way to a worker that is left, and no worker
   holds it freshly fetched, with shards it can still finish, or finished with success.
   */
  lemma FailedIsFinalIff(maxConcurrent: nat, events: seq<Event>, id: TaskId)
    requires IsFailed(Run(Start(maxConcurrent), events), id)
    ensures !Revivable(Run(Start(maxConcurrent), events), id)
        <==> forall more :: IsFailed(Run(Start(maxConcurrent), events + more), id)
  {
    var p := Run(Start(maxConcurrent), events);
    RunKeepsInv(maxConcurrent, events);
    forall more ensures Run(Start(maxConcurrent), events + more) == Run(p, more) {
      RunConcat(Start(maxConcurrent), events, more);
    }
    if !Revivable(p, id) {
      forall more ensures IsFailed(Run(p, more), id) {
        FinalStays(p, more, id);
      }
    } else {
      if w :| 0 <= w < |p.workers| && Revives(p, p.workers[w], id) {
        WorkerRevives(p, w, id);
      } else {
        var w :| 0 <= w < |p.workers| && !p.workers[w].Exited?;
        WaitingMayRevive(p, w, id);
      }
      var more :| !IsFailed(Run(p, more), id);
      assert !IsFailed(Run(Start(maxConcurrent), events + more), id);
    }
  }

  /** The task is in the queue, already marked failed by a cancel. */
  function CancelledInQueue(id: TaskId): Pool {
    Pool(map[id := Task(1, Failed, 0)], {}, [id], [Idle], {}, [], false)
  }

  function CancelEvents(id: TaskId): seq<Event> {
    [Store(id, 1), Enqueue(id), CancelCheck(id), CancelWrite(id)]
  }

  lemma CancelReachesQueue(id: TaskId)
    ensures Run(Start(1), CancelEvents(id)) == CancelledInQueue(id)
  {
    var es := CancelEvents(id);
    assert es[..4] == es && es[..4][..3] == es[..3] && es[..3][..2] == es[..2] && es[..2][..1] == es[..1] && es[..1][..0] == [];
    assert Run(Start(1), []) == Pool(map[], {}, [], [Idle], {}, [], false);
    assert Run(Start(1), es[..1]) == Pool(map[id := Task(1, Pending, 0)], {id}, [], [Idle], {}, [], false);
    assert Run(Start(1), es[..2]) == Pool(map[id := Task(1, Pending, 0)], {}, [id], [Idle], {}, [], false);
    assert Run(Start(1), es[..3]) == Pool(map[id := Task(1, Pending, 0)], {}, [id], [Idle], {id}, [], false);
  }

  lemma WorkerTakesItOn(p: Pool, id: TaskId)
    requires p == CancelledInQueue(id)
    ensures Run(p, [Dequeue(0), Begin(0)])
            == Pool(map[id := Task(1, Running, 0)], {}, [], [Working(id, 0)], {}, [id], false)
  {
    var fetched := p.(workers := [Fetched(id)], queue := [], executions := [id]);
    assert Step(p, Dequeue(0)) == fetched;
    RunTwo(p, Dequeue(0), Begin(0));
  }

  lemma WorkerFinishesIt(p: Pool, id: TaskId)
    requires p == Pool(map[id := Task(1, Running, 0)], {}, [], [Working(id, 0)], {}, [id], false)
    ensures Run(p, Moves(1) + EndOf(1, 1) + [Finish(0)]).tasks == map[id := Task(1, Completed, 1)]
  {
    assert WithWorker(p, Working(id, 0), false) == p;
    LoneWorkerEnds(p, id, 1);
    var q := Run(p, Moves(1) + EndOf(1, 1));
    assert q.tasks == map[id := Task(1, Running, 1)] && q.workers == [Finishing(id, true)];
    RunSnoc(p, Moves(1) + EndOf(1, 1), Finish(0));
  }

  /** A task cancelled in the queue is still taken, run and completed. */
  lemma CancelledTaskCompletes(id: TaskId)
    ensures exists events ::
              && CancelEvents(id) <= events && id in Run(Start(1), events).tasks
              && Run(Start(1), events).tasks[id] == Task(1, Completed, 1)
  {
    var taken, finished := [Dequeue(0), Begin(0)], Moves(1) + EndOf(1, 1) + [Finish(0)];
    RunConcat(Start(1), CancelEvents(id), taken);
    RunConcat(Start(1), CancelEvents(id) + taken, finished);
    assert Run(Run(Run(Start(1), CancelEvents(id)), taken), finished).tasks == map[id := Task(1, Completed, 1)] by {
      CancelReachesQueue(id);
      WorkerTakesItOn(CancelledInQueue(id), id);
      WorkerFinishesIt(Run(CancelledInQueue(id), taken), id);
    }
    var events := CancelEvents(id) + taken + finished;
    assert CancelEvents(id) <= events && Run(Start(1), events).tasks == map[id := Task(1, Completed, 1)];
  }
}
