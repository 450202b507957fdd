/**
 The workload daemon's operations on one workload, in place on its task table.

 The number of running tasks is shared by all workloads of the node, so it is passed in and
 handed back.
 */
module WorkloadEngine {

  import opened Digraph
  import opened TaskDag
  import opened Workload

  datatype Reply = Success | Invalid | Unsupported | Cyclic

  lemma SameEdges(a: seq<bv16>, b: seq<bv16>, n: nat)
    requires n <= MAX_TASKS && n <= |a| && n <= |b| && forall i :: 0 <= i < n ==> a[i] == b[i]
    ensures DependencyEdges(a, n) == DependencyEdges(b, n)
  {
  }

  lemma NoMissing(mask: bv16, n: nat)
    requires n <= MAX_TASKS
    ensures Missing(mask, {}, n) == 0 <==> NoDeps(mask, n)
  {
  }

  class Engine {
    const tasks: array<Task>
    var count: nat
    var phase: Phase
    const kind: RecoveryClass

    ghost predicate Shaped()
      reads this
    {
      tasks.Length == MAX_TASKS && count <= MAX_TASKS
    }

    ghost function View(): Job
      requires Shaped()
      reads this, tasks
    {
      Job(phase, kind, tasks[..count])
    }

    ghost predicate Valid()
      reads this, tasks
    {
      Shaped() && Sound(View())
    }

    constructor (kind: RecoveryClass)
      ensures Valid() && fresh(tasks) && phase == Creating && count == 0 && this.kind == kind
    {
      tasks := new Task[MAX_TASKS](_ => Task(Blocked, 0, 0, 0));
      count, phase := 0, Creating;
      this.kind := kind;
      new;
      EmptyGraph(tasks[..0]);
    }

    /** Starts ready tasks in order while the node has room. */
    method Schedule(active: nat) returns (newActive: nat)
      requires Shaped()
      modifies `phase, tasks
      ensures Schedules(old(tasks[..count]), tasks[..count])
      ensures phase == if old(phase) == Admitted && tasks[..count] != old(tasks[..count]) then Executing else old(phase)
      ensures newActive >= active && (newActive < MAX_RUNNING ==> forall i :: 0 <= i < count ==> tasks[i].state != Ready)
      ensures newActive == active <==> tasks[..count] == old(tasks[..count])
      ensures active <= MAX_RUNNING ==> newActive <= MAX_RUNNING
    {
      newActive := active;
      for i := 0 to count
        invariant forall k :: i <= k < count ==> tasks[k] == old(tasks[k])
        invariant forall k :: 0 <= k < i ==> tasks[k].state != Ready
        invariant forall k :: 0 <= k < i ==>
          tasks[k] == old(tasks[k]) || (old(tasks[k]).state == Ready && tasks[k] == Launched(old(tasks[k])))
        invariant phase == if old(phase) == Admitted && newActive > active then Executing else old(phase)
        invariant active <= MAX_RUNNING ==> newActive <= MAX_RUNNING
        invariant newActive >= active && (newActive == active <==> forall k :: 0 <= k < i ==> tasks[k] == old(tasks[k]))
      {
        if newActive >= MAX_RUNNING {
          assert tasks[..count] == old(tasks[..count]) <==> newActive == active;
          return;
        }
        if tasks[i].state == Ready {
          tasks[i] := Launched(tasks[i]);
          newActive := newActive + 1;
          if phase == Admitted {
            phase := Executing;
          }
        }
      }
      assert tasks[..count] == old(tasks[..count]) <==> newActive == active;
    }

    /** Scheduling keeps the workload sound and its tasks in order. */
    method ScheduleSoundly(active: nat) returns (newActive: nat)
      requires Valid()
      modifies `phase, tasks
      ensures Valid() && Schedules(old(tasks[..count]), tasks[..count])
      ensures phase == if old(phase) == Admitted && tasks[..count] != old(tasks[..count]) then Executing else old(phase)
      ensures InOrder(tasks[..count]) <==> old(InOrder(tasks[..count]))
      ensures OwnMasks(tasks[..count]) <==> old(OwnMasks(tasks[..count]))
      ensures newActive >= active && (newActive < MAX_RUNNING ==> forall i :: 0 <= i < count ==> tasks[i].state != Ready)
      ensures active <= MAX_RUNNING ==> newActive <= MAX_RUNNING && (active == MAX_RUNNING ==> tasks[..count] == old(tasks[..count]))
      ensures tasks[..count] != old(tasks[..count]) || old(HasRunning(tasks[..count])) ==> HasRunning(tasks[..count])
      ensures old(Active(phase)) && active < MAX_RUNNING ==> HasRunning(tasks[..count])
    {
      hide Sound, InOrder, OwnMasks, Schedules, HasRunning, Underway;
      ghost var was := View();
      SoundSize(was);
      newActive := Schedule(active);
      SoundIsUnderway(was);
      ScheduleRuns(was.tasks, tasks[..count], active < MAX_RUNNING);
      ScheduleIsSound(was, tasks[..count]);
      ScheduleKeepsOrder(was.tasks, tasks[..count]);
    }

    /** Admits a graph: exactly when it has one to sixteen tasks and no cycle. */
    method Submit(masks: seq<bv16>, active: nat) returns (r: Reply, newActive: nat)
      requires Valid()
      modifies this, tasks
      ensures Valid()
      ensures r == Success <==> 1 <= |masks| <= MAX_TASKS && Acyclic(DependencyEdges(masks, |masks|))
      ensures r == Invalid <==> |masks| == 0 || |masks| > MAX_TASKS
      ensures r != Success ==> View() == old(View())
      ensures r == Success ==> Schedules(AdmittedTasks(masks), tasks[..count]) && InOrder(tasks[..count])
      ensures r == Success ==> phase == Admitted || phase == Executing
      ensures r == Success && (forall i :: 0 <= i < |masks| ==> NamesBelow(masks[i], |masks|)) ==> OwnMasks(tasks[..count])
      ensures r == Success ==> Moving(View())
      ensures r == Success && active <= MAX_RUNNING ==> (phase == Admitted <==> active == MAX_RUNNING)
      ensures r == Success && active == MAX_RUNNING ==> tasks[..count] == AdmittedTasks(masks)
      ensures active <= MAX_RUNNING ==> newActive <= MAX_RUNNING
    {
      hide Sound, InOrder, OwnMasks, Schedules, Acyclic, DependencyEdges, NamesBelow, Bit, HasRunning;
      newActive := active;
      if |masks| == 0 || |masks| > MAX_TASKS {
        return Invalid, newActive;
      }
      var dag := FromTasks(masks, |masks|);
      var check := VerifyAcyclic(dag);
      SameEdges(dag.deps, masks, |masks|);
      if check != Ok {
        return Cyclic, newActive;
      }
      Admit(masks, dag);
      ghost var ts := tasks[..count];
      SubmitIsSound(ts, masks, kind);
      SubmitIsInOrder(ts, masks);
      NothingRunsYet(ts, masks);
      newActive := ScheduleSoundly(active);
      return Success, newActive;
    }

    method Admit(masks: seq<bv16>, dag: Dag)
      requires Shaped() && 1 <= |masks| <= MAX_TASKS && WellBuilt(dag) && dag.count == |masks|
      requires forall i :: 0 <= i < |masks| ==> dag.deps[i] == masks[i]
      modifies this, tasks
      ensures Shaped() && count == |masks| && phase == Admitted && tasks[..count] == AdmittedTasks(masks)
    {
      hide Bit, NoDeps, Missing;
      count := |masks|;
      for i := 0 to count
        invariant Shaped() && count == |masks|
        invariant forall k :: 0 <= k < i ==> tasks[k] == AdmittedTasks(masks)[k]
      {
        NoMissing(masks[i], |masks|);
        tasks[i] := Fresh(masks[i], dag.inDegrees[i] == 0);
      }
      phase := Admitted;
    }

    /** All own dependencies of task `i` are completed. */
    method MayRun(i: nat) returns (ready: bool)
      requires Shaped() && i < count
      ensures ready <==> DepsDone(tasks[..count], i)
    {
      for j := 0 to count
        invariant forall k :: 0 <= k < j && Bit(tasks[i].deps, k) ==> tasks[k].state == Completed
      {
        if Bit(tasks[i].deps, j) && tasks[j].state != Completed {
          assert tasks[..count][j] == tasks[j];
          return false;
        }
      }
      return true;
    }

    /** Makes ready whatever waited only for completed tasks, and reports whether all tasks are completed. */
    method Release() returns (all: bool)
      requires Shaped()
      modifies tasks
      ensures tasks[..count] == Released(old(tasks[..count]))
      ensures all <==> AllCompleted(tasks[..count])
    {
      hide Bit, DepsDone;
      all := true;
      ghost var ts := tasks[..count];
      for i := 0 to count
        invariant forall k :: 0 <= k < i ==> tasks[k] == Released(ts)[k]
        invariant forall k :: i <= k < count ==> tasks[k] == ts[k]
        invariant all <==> forall k :: 0 <= k < i ==> tasks[k].state == Completed
      {
        if tasks[i].state != Completed {
          all := false;
        }
        if tasks[i].state == Blocked {
          SameCompletion(ts, tasks[..count], i);
          var ready := MayRun(i);
          if ready {
            tasks[i] := tasks[i].(state := Ready);
          }
        }
      }
    }

    /** Stops what is ready or running and gives the workload up, unless it has finished. */
    method Cancel(active: nat) returns (newActive: nat)
      requires Valid()
      modifies `phase, tasks
      ensures Valid()
      ensures Cancels(old(tasks[..count]), tasks[..count]) && newActive <= active
      ensures phase == if old(phase) == Finished then Finished else Aborted
      ensures old(InOrder(tasks[..count])) ==> InOrder(tasks[..count])
      ensures old(OwnMasks(tasks[..count])) ==> OwnMasks(tasks[..count])
    {
      hide Sound, InOrder, OwnMasks;
      newActive := active;
      ghost var was := View();
      for i := 0 to count
        invariant newActive <= active && phase == was.phase
        invariant forall k :: 0 <= k < i ==>
          var t := was.tasks[k];
          tasks[k] == if t.state == Running || t.state == Ready then t.(state := Cancelled) else t
        invariant forall k :: i <= k < count ==> tasks[k] == was.tasks[k]
      {
        if tasks[i].state == Running || tasks[i].state == Ready {
          tasks[i] := tasks[i].(state := Cancelled);
          if newActive > 0 {
            newActive := newActive - 1;
          }
        }
      }
      CancelIsSound(was, tasks[..count]);
      if phase != Finished {
        phase := Aborted;
      }
    }

    /** A process ended. Success releases dependents; failure retries, or gives the workload up. */
    method NotifyExit(u: nat, code: int, active: nat) returns (found: bool, newActive: nat)
      requires Valid()
      modifies `phase, tasks
      ensures Valid()
      ensures found <==> (old(phase) == Executing || old(phase) == Recovering) && u < count && old(tasks[..count])[u].state == Running
      ensures !found ==> View() == old(View())
      ensures found && code == 0 ==> var us := Released(Done(old(tasks[..count]), u));
        if AllCompleted(us) then phase == Finished && tasks[..count] == us else phase == old(phase) && Schedules(us, tasks[..count])
      ensures found && code != 0 ==> var ts := old(tasks[..count]);
        if kind != Irreversible && ts[u].retries < MAX_RETRIES
        then phase == Recovering && Schedules(ts[u := ts[u].(state := Ready, retries := ts[u].retries + 1)], tasks[..count])
        else phase == Aborted && Cancels(ts[u := ts[u].(state := Failed)], tasks[..count])
      ensures old(InOrder(tasks[..count])) ==> InOrder(tasks[..count])
      ensures old(OwnMasks(tasks[..count])) ==> OwnMasks(tasks[..count])
      ensures active <= MAX_RUNNING ==> newActive <= MAX_RUNNING
      ensures active <= MAX_RUNNING && old(Moving(View())) ==> Moving(View())
    {
      hide Sound, InOrder, OwnMasks, Schedules, Cancels, Released, Unblocks, AllCompleted, HasRunning;
      if !((phase == Executing || phase == Recovering) && u < count && tasks[u].state == Running) {
        return false, active;
      }
      newActive := if active > 0 then active - 1 else active;
      assert active <= MAX_RUNNING ==> newActive < MAX_RUNNING;
      if code == 0 {
        newActive := Complete(u, newActive);
      } else if kind != Irreversible && tasks[u].retries < MAX_RETRIES {
        newActive := Retry(u, newActive);
      } else {
        newActive := GiveUp(u, newActive);
      }
      return true, newActive;
    }

    method Complete(u: nat, active: nat) returns (newActive: nat)
      requires Valid() && (phase == Executing || phase == Recovering) && u < count && tasks[u].state == Running
      modifies `phase, tasks
      ensures Valid()
      ensures var us := Released(Done(old(tasks[..count]), u));
        if AllCompleted(us) then phase == Finished && tasks[..count] == us else phase == old(phase) && Schedules(us, tasks[..count])
      ensures old(InOrder(tasks[..count])) ==> InOrder(tasks[..count])
      ensures old(OwnMasks(tasks[..count])) ==> OwnMasks(tasks[..count])
      ensures active < MAX_RUNNING ==> newActive <= MAX_RUNNING && Moving(View())
    {
      hide Sound, InOrder, OwnMasks, Schedules, Unblocks, AllCompleted, HasRunning;
      ghost var was := View();
      tasks[u] := tasks[u].(state := Completed);
      assert tasks[..count] == Done(was.tasks, u);
      var all := Release();
      CompleteIsSound(was, u, tasks[..count]);
      CompleteKeepsOrder(was.tasks, u, tasks[..count]);
      newActive := active;
      if all {
        phase := Finished;
      } else {
        newActive := ScheduleSoundly(active);
      }
    }

    method Retry(u: nat, active: nat) returns (newActive: nat)
      requires Valid() && (phase == Executing || phase == Recovering) && u < count && tasks[u].state == Running
      requires kind != Irreversible && tasks[u].retries < MAX_RETRIES
      modifies `phase, tasks
      ensures Valid() && phase == Recovering
      ensures var ts := old(tasks[..count]); Schedules(ts[u := ts[u].(state := Ready, retries := ts[u].retries + 1)], tasks[..count])
      ensures old(InOrder(tasks[..count])) ==> InOrder(tasks[..count])
      ensures old(OwnMasks(tasks[..count])) ==> OwnMasks(tasks[..count])
      ensures active < MAX_RUNNING ==> newActive <= MAX_RUNNING && Moving(View())
    {
      hide Sound, InOrder, OwnMasks, Schedules, HasRunning;
      ghost var was := View();
      RetryIsSound(was, u);
      phase := Recovering;
      tasks[u] := tasks[u].(state := Ready, retries := tasks[u].retries + 1);
      assert tasks[..count] == was.tasks[u := tasks[u]];
      newActive := ScheduleSoundly(active);
    }

    method GiveUp(u: nat, active: nat) returns (newActive: nat)
      requires Valid() && (phase == Executing || phase == Recovering) && u < count && tasks[u].state == Running
      modifies `phase, tasks
      ensures Valid() && phase == Aborted
      ensures var ts := old(tasks[..count]); Cancels(ts[u := ts[u].(state := Failed)], tasks[..count])
      ensures old(InOrder(tasks[..count])) ==> InOrder(tasks[..count])
      ensures old(OwnMasks(tasks[..count])) ==> OwnMasks(tasks[..count])
      ensures newActive <= active && Moving(View())
    {
      hide Sound, InOrder, OwnMasks, Cancels, HasRunning;
      ghost var was := View();
      FailIsSound(was, u);
      tasks[u] := tasks[u].(state := Failed);
      phase := Aborted;
      assert tasks[..count] == was.tasks[u := tasks[u]];
      newActive := Cancel(active);
    }

    /** Adds a downstream task. With own masks it cannot close a cycle and keeps the order. */
    method Extend(mask: bv16, active: nat) returns (r: Reply, newActive: nat)
      requires Valid()
      modifies this, tasks
      ensures Valid()
      ensures r == Success <==>
        && (old(phase) == Admitted || old(phase) == Executing) && old(count) < MAX_TASKS && NamesBelow(mask, old(count))
        && Acyclic(Graph(Extended(old(tasks[..count]), mask)))
      ensures r != Success ==> View() == old(View())
      ensures r == Success ==> Schedules(Extended(old(tasks[..count]), mask), tasks[..count])
      ensures old(OwnMasks(tasks[..count])) ==> r != Cyclic && OwnMasks(tasks[..count])
      ensures old(OwnMasks(tasks[..count]) && InOrder(tasks[..count])) ==> InOrder(tasks[..count])
      ensures r == Success && old(InOrder(tasks[..count])) ==>
        (InOrder(tasks[..count]) <==> NextIsUnnamed(old(tasks[..count])))
      ensures active <= MAX_RUNNING ==> newActive <= MAX_RUNNING
      ensures active <= MAX_RUNNING && old(Moving(View())) ==> Moving(View())
    {
      hide Sound, InOrder, OwnMasks, Schedules, Acyclic, NamesBelow, Bit, NoDeps, LowMask, DependencyEdges, HasRunning;
      hide Graph, Extended, NextIsUnnamed;
      newActive := active;
      if phase != Admitted && phase != Executing {
        return Invalid, newActive;
      }
      if count >= MAX_TASKS {
        return Unsupported, newActive;
      }
      ExtensionCheckIsExact(mask, count);
      if mask & !LowMask(count) != 0 {
        return Invalid, newActive;
      }
      var ok;
      ok, newActive := Attach(mask, active);
      return if ok then Success else Cyclic, newActive;
    }

    /** The accepted half of an extension: append, check for cycles, schedule. */
    method Attach(mask: bv16, active: nat) returns (ok: bool, newActive: nat)
      requires Valid() && (phase == Admitted || phase == Executing) && count < MAX_TASKS && NamesBelow(mask, count)
      modifies this, tasks
      ensures Valid()
      ensures ok <==> Acyclic(Graph(Extended(old(tasks[..count]), mask)))
      ensures !ok ==> View() == old(View()) && newActive == active
      ensures ok ==> Schedules(Extended(old(tasks[..count]), mask), tasks[..count])
      ensures old(OwnMasks(tasks[..count])) ==> ok && OwnMasks(tasks[..count])
      ensures old(OwnMasks(tasks[..count]) && InOrder(tasks[..count])) ==> InOrder(tasks[..count])
      ensures ok && old(InOrder(tasks[..count])) ==> (InOrder(tasks[..count]) <==> NextIsUnnamed(old(tasks[..count])))
      ensures active <= MAX_RUNNING ==> newActive <= MAX_RUNNING
      ensures old(Moving(View())) ==> Moving(View())
    {
      hide Sound, InOrder, OwnMasks, Schedules, Acyclic, NamesBelow, Bit, NoDeps, DependencyEdges, HasRunning;
      hide Graph, Extended, NextIsUnnamed;
      ghost var was := View();
      ExtendIsSound(was, mask);
      ok := Append(mask);
      if !ok {
        return ok, active;
      }
      if old(InOrder(tasks[..count])) {
        ExtensionKeepsOrderExactly(was.tasks, mask);
      }
      newActive := ScheduleSoundly(active);
    }

    /** Writes the new task behind the others and takes it back when the graph has a cycle. */
    method Append(mask: bv16) returns (ok: bool)
      requires Shaped() && count < MAX_TASKS && NamesBelow(mask, count)
      modifies this`count, tasks
      ensures Shaped()
      ensures ok <==> Acyclic(Graph(Extended(old(tasks[..count]), mask)))
      ensures ok ==> count == old(count) + 1 && tasks[..count] == Extended(old(tasks[..count]), mask)
      ensures !ok ==> count == old(count) && tasks[..count] == old(tasks[..count])
    {
      hide Acyclic, Bit, NoDeps, DependencyEdges, NamesBelow;
      ghost var ts := tasks[..count];
      ghost var us := Extended(ts, mask);
      tasks[count] := Fresh(mask, false);
      count := count + 1;
      var masks := seq(count, i requires 0 <= i < count reads this, tasks => if i < tasks.Length then tasks[i].deps else 0);
      var dag := FromTasks(masks, count);
      var check := VerifyAcyclic(dag);
      SameEdges(dag.deps, Masks(us), count);
      if check != Ok {
        count := count - 1;
        assert tasks[..count] == ts;
        return false;
      }
      NoMissing(mask, count);
      OwnPositionIsUnnamed(mask, count - 1);
      if dag.inDegrees[count - 1] == 0 {
        tasks[count - 1] := Fresh(mask, true);
      }
      assert tasks[..count] == us;
      return true;
    }
  }

  lemma NothingRunsYet(ts: seq<Task>, masks: seq<bv16>)
    requires Submitted(ts, masks)
    ensures !HasRunning(ts)
  {
  }

  /** A sound active workload has something under way. */
  lemma SoundIsUnderway(j: Job)
    requires Sound(j)
    ensures Active(j.phase) ==> Underway(j.tasks)
  {
  }

  lemma SoundSize(j: Job)
    requires Sound(j)
    ensures |j.tasks| <= MAX_TASKS
  {
  }

  lemma EmptyGraph(ts: seq<Task>)
    requires ts == []
    ensures Acyclic(Graph(ts))
  {
    forall v ensures !Reaches(Graph(ts), v, v) {
      if Reaches(Graph(ts), v, v) {
        var c := FirstStep(Graph(ts), v, v);
      }
    }
  }

  lemma OwnPositionIsUnnamed(mask: bv16, n: nat)
    requires n < MAX_TASKS && NamesBelow(mask, n)
    ensures NoDeps(mask, n + 1) <==> NoDeps(mask, n)
  {
  }

  // ---------------------------------------------------------------- whole runs

  datatype Request = Submit(masks: seq<bv16>) | Extend(mask: bv16) | Exit(task: nat, code: int) | Cancel

  /** A submitted graph whose masks name only its own tasks. */
  ghost predicate Own(q: Request) {
    q.Submit? ==> forall i :: 0 <= i < |q.masks| ==> NamesBelow(q.masks[i], |q.masks|)
  }

  /** What holds of a workload after any requests. */
  ghost predicate Orderly(j: Job) {
    Sound(j) && InOrder(j.tasks) && OwnMasks(j.tasks) && Moving(j)
  }

  method Serve(e: Engine, q: Request, active: nat) returns (newActive: nat)
    requires e.Shaped() && Orderly(e.View()) && Own(q) && active <= MAX_RUNNING
    modifies e, e.tasks
    ensures e.Shaped() && Orderly(e.View()) && newActive <= MAX_RUNNING
  {
    hide HasRunning, Sound, InOrder, OwnMasks, Schedules, Cancels, Released, Unblocks, AllCompleted;
    hide Acyclic, DependencyEdges, NamesBelow, Bit;
    match q
    case Submit(masks) =>
      var r;
      r, newActive := e.Submit(masks, active);
    case Extend(mask) =>
      var r;
      r, newActive := e.Extend(mask, active);
    case Exit(task, code) =>
      var found;
      found, newActive := e.NotifyExit(task, code, active);
    case Cancel =>
      newActive := e.Cancel(active);
  }

  /**
   Through any submissions, extensions, exits and cancellations, whatever the other workloads of the
   node do to the shared counter within its limit: tasks start in dependency order, are launched at most
   once more than they may be retried, an active workload has a task ready or running, and it has one
   running exactly when it is past admission.
   */
  method Run(kind: RecoveryClass, requests: seq<Request>, active: seq<nat>) returns (e: Engine)
    requires |active| == |requests| && forall i :: 0 <= i < |requests| ==> Own(requests[i]) && active[i] <= MAX_RUNNING
    ensures e.Shaped() && Orderly(e.View())
    ensures forall i, j :: 0 <= i < e.count && 0 <= j < e.count && Started(e.tasks[i]) && Bit(e.tasks[i].deps, j)
              ==> e.tasks[j].state == Completed
    ensures forall i :: 0 <= i < e.count ==> e.tasks[i].launches <= if kind == Irreversible then 1 else MAX_RETRIES + 1
    ensures e.phase == Finished ==> forall i :: 0 <= i < e.count ==> e.tasks[i].state == Completed
    ensures Active(e.phase) ==> Underway(e.tasks[..e.count])
    ensures Active(e.phase) ==> (e.phase == Admitted <==> forall i :: 0 <= i < e.count ==> e.tasks[i].state != Running)
  {
    e := new Engine(kind);
    assert Orderly(e.View());
    for i := 0 to |requests|
      invariant e.kind == kind && fresh(e) && fresh(e.tasks) && e.Shaped() && Orderly(e.View())
    {
      var _ := Serve(e, requests[i], active[i]);
    }
    OrderlyMeans(e.View());
    ghost var ts := e.View().tasks;
    assert forall i :: 0 <= i < e.count ==> ts[i] == e.tasks[i];
  }

  /** A workload submitted while the node is full starts nothing, and no exit ever changes that. */
  method StalledWorkload(exits: seq<(nat, int)>, active: seq<nat>) returns (e: Engine)
    requires |active| == |exits|
    ensures e.Shaped() && e.phase == Admitted && e.count == 1 && e.tasks[0].state == Ready && e.tasks[0].launches == 0
  {
    hide Sound, InOrder, OwnMasks, Acyclic, NamesBelow, HasRunning;
    e := new Engine(Pure);
    OneTask();
    var r, after := e.Submit([0], MAX_RUNNING);
    ghost var j := e.View();
    assert j.tasks == [Fresh(0, true)];
    for i := 0 to |exits|
      invariant fresh(e) && fresh(e.tasks) && e.Valid() && e.View() == j
    {
      var found, _ := e.NotifyExit(exits[i].0, exits[i].1, active[i]);
    }
  }

  lemma OneTask()
    ensures Acyclic(DependencyEdges([0], 1)) && !Bit(0, 0)
  {
    var E := DependencyEdges([0], 1);
    assert !Bit(0, 0) && E == {};
    OrderedIsAcyclic(E, []);
  }

  lemma OrderlyMeans(j: Job)
    requires |j.tasks| <= MAX_TASKS && Orderly(j)
    ensures forall i, k :: 0 <= i < |j.tasks| && 0 <= k < |j.tasks| && Started(j.tasks[i]) && Bit(j.tasks[i].deps, k)
              ==> j.tasks[k].state == Completed
    ensures forall i :: 0 <= i < |j.tasks| ==> j.tasks[i].launches <= if j.kind == Irreversible then 1 else MAX_RETRIES + 1
    ensures j.phase == Finished ==> forall i :: 0 <= i < |j.tasks| ==> j.tasks[i].state == Completed
    ensures Active(j.phase) ==> Underway(j.tasks)
    ensures Active(j.phase) ==> (j.phase == Admitted <==> forall i :: 0 <= i < |j.tasks| ==> j.tasks[i].state != Running)
  {
    hide Bit, Acyclic, Graph;
    forall i, k | 0 <= i < |j.tasks| && 0 <= k < |j.tasks| && Started(j.tasks[i]) && Bit(j.tasks[i].deps, k)
      ensures j.tasks[k].state == Completed
    {
      assert DepsDone(j.tasks, i);
    }
    forall i | 0 <= i < |j.tasks| ensures j.tasks[i].launches <= if j.kind == Irreversible then 1 else MAX_RETRIES + 1 {
      assert Tallied(j.tasks[i], j.kind);
    }
  }

  /** A mask that names a task not yet there lets that task be added behind its dependent. */
  lemma ForeignMaskBreaksOrder()
    ensures var ts := AdmittedTasks([2]);
      var us := ts + [Fresh(0, true)];
      InOrder(ts) && Acyclic(Graph(ts)) && Acyclic(Graph(us)) && !InOrder(us)
  {
    var ts := AdmittedTasks([2]);
    var us := ts + [Fresh(0, true)];
    assert !Bit(2, 0) && Bit(2, 1) && !Bit(0, 0) && !Bit(0, 1);
    assert ts[0] == Fresh(2, true);
    assert Masks(ts) == [2] && Masks(us) == [2, 0];
    forall a, b | (a, b) in Graph(ts) ensures false {
      GraphEdge(ts, a, b);
    }
    forall a, b | (a, b) in Graph(us) ensures a == 1 && b == 0 {
      GraphEdge(us, a, b);
    }
    assert [1, 0][..1] == [1];
    OrderedIsAcyclic(Graph(ts), []);
    OrderedIsAcyclic(Graph(us), [1, 0]);
    assert Started(us[0]) && !DepsDone(us, 0);
  }
}
