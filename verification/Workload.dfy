/**
 The task state machine of one workload: the states of its tasks, what every operation keeps,
 and the operations as changes of values.
 */
module Workload {

  import opened Digraph
  import opened TaskDag

  const MAX_RETRIES := 3
  const MAX_RUNNING := 8

  datatype TaskState = Blocked | Ready | Running | Completed | Failed | Cancelled

  datatype Phase = Creating | Admitted | Executing | Recovering | Finished | Aborted

  datatype RecoveryClass = Pure | Stateful | Irreversible

  /** `launches` records how often the task's process was started since the graph was submitted. */
  datatype Task = Task(state: TaskState, retries: nat, deps: bv16, launches: nat)

  datatype Job = Job(phase: Phase, kind: RecoveryClass, tasks: seq<Task>)

  // ---------------------------------------------------------------- dependency masks

  function LowMask(n: nat): bv16
    requires n < MAX_TASKS
  {
    ((1 as bv16) << n) - 1
  }

  lemma {:induction false} HighBitStays(n: nat, j: nat)
    requires n <= j < MAX_TASKS
    ensures ((1 as bv16) << j) & !LowMask(n) == (1 as bv16) << j
    decreases j - n
  {
    if n < j {
      HighBitStays(n + 1, j);
      assert LowMask(n) & LowMask(n + 1) == LowMask(n);
    }
  }

  lemma LowBitGoes(n: nat, j: nat)
    requires j < n < MAX_TASKS
    ensures ((1 as bv16) << j) & !LowMask(n) == 0
    decreases n
  {
  }

  lemma BitOfMasked(mask: bv16, n: nat, j: nat)
    requires n < MAX_TASKS && j < MAX_TASKS
    ensures Bit(mask & !LowMask(n), j) <==> n <= j && Bit(mask, j)
  {
    if n <= j {
      HighBitStays(n, j);
    } else {
      LowBitGoes(n, j);
    }
    var b := (1 as bv16) << j;
    assert (mask & !LowMask(n)) & b == mask & (b & !LowMask(n));
  }

  lemma SomeBit(x: bv16)
    ensures x != 0 ==> exists j: nat :: j < MAX_TASKS && Bit(x, j)
  {
    if forall j: nat :: j < MAX_TASKS ==> !Bit(x, j) {
      assert !Bit(x, 0) && !Bit(x, 1) && !Bit(x, 2) && !Bit(x, 3) && !Bit(x, 4) && !Bit(x, 5) && !Bit(x, 6) && !Bit(x, 7);
      assert !Bit(x, 8) && !Bit(x, 9) && !Bit(x, 10) && !Bit(x, 11) && !Bit(x, 12) && !Bit(x, 13) && !Bit(x, 14) && !Bit(x, 15);
    }
  }

  lemma NoBits()
    ensures forall j: nat :: j < MAX_TASKS ==> !Bit(0, j)
  {
  }

  /** The mask names no task at or above `n`. */
  ghost predicate NamesBelow(mask: bv16, n: nat) {
    forall j :: n <= j < MAX_TASKS ==> !Bit(mask, j)
  }

  ghost predicate NoDeps(mask: bv16, n: nat)
    requires n <= MAX_TASKS
  {
    forall j :: 0 <= j < n ==> !Bit(mask, j)
  }

  /** The downstream-only check of an extension decides just that. */
  lemma ExtensionCheckIsExact(mask: bv16, n: nat)
    requires n < MAX_TASKS
    ensures mask & !LowMask(n) == 0 <==> NamesBelow(mask, n)
  {
    hide Bit, LowMask;
    var x := mask & !LowMask(n);
    SomeBit(x);
    NoBits();
    if x != 0 {
      var j: nat :| j < MAX_TASKS && Bit(x, j);
      BitOfMasked(mask, n, j);
    } else {
      forall j | n <= j < MAX_TASKS ensures !Bit(mask, j) {
        BitOfMasked(mask, n, j);
      }
    }
  }

  // ---------------------------------------------------------------- the invariant

  ghost function Masks(ts: seq<Task>): seq<bv16> {
    seq(|ts|, i requires 0 <= i < |ts| => ts[i].deps)
  }

  ghost function Graph(ts: seq<Task>): Edges
    requires |ts| <= MAX_TASKS
  {
    DependencyEdges(Masks(ts), |ts|)
  }

  predicate Started(t: Task) {
    t.state == Ready || t.state == Running || t.state == Completed
  }

  /** Task `i` may run: everything it depends on is completed. */
  ghost predicate DepsDone(ts: seq<Task>, i: int)
    requires |ts| <= MAX_TASKS && 0 <= i < |ts|
  {
    forall j :: 0 <= j < |ts| && Bit(ts[i].deps, j) ==> ts[j].state == Completed
  }

  /** No task is ready, running or completed before its dependencies are completed. */
  ghost predicate InOrder(ts: seq<Task>)
    requires |ts| <= MAX_TASKS
  {
    forall i :: 0 <= i < |ts| && Started(ts[i]) ==> DepsDone(ts, i)
  }

  /** The masks name only tasks of the workload. */
  ghost predicate OwnMasks(ts: seq<Task>) {
    forall i :: 0 <= i < |ts| ==> NamesBelow(ts[i].deps, |ts|)
  }

  /** How often a task in each state was launched. */
  ghost predicate Tallied(t: Task, kind: RecoveryClass) {
    && t.retries <= (if kind == Irreversible then 0 else MAX_RETRIES)
    && match t.state
       case Blocked => t.launches == t.retries == 0
       case Ready => t.launches == t.retries
       case Running => t.launches == t.retries + 1
       case Completed => t.launches == t.retries + 1
       case Failed => t.launches == t.retries + 1
       case Cancelled => t.launches <= t.retries + 1
  }

  predicate Active(p: Phase) {
    p == Admitted || p == Executing || p == Recovering
  }

  ghost predicate AllCompleted(ts: seq<Task>) {
    forall i :: 0 <= i < |ts| ==> ts[i].state == Completed
  }

  ghost predicate Underway(ts: seq<Task>) {
    exists i :: 0 <= i < |ts| && (ts[i].state == Ready || ts[i].state == Running)
  }

  ghost predicate Sound(j: Job) {
    && |j.tasks| <= MAX_TASKS && Acyclic(Graph(j.tasks))
    && (forall i :: 0 <= i < |j.tasks| ==> Tallied(j.tasks[i], j.kind))
    && (j.phase == Finished ==> AllCompleted(j.tasks))
    && (Active(j.phase) ==> Underway(j.tasks))
    && (Active(j.phase) ==> forall i :: 0 <= i < |j.tasks| ==> j.tasks[i].state != Failed && j.tasks[i].state != Cancelled)
  }

  ghost predicate HasRunning(ts: seq<Task>) {
    exists i :: 0 <= i < |ts| && ts[i].state == Running
  }

  /** An active workload that has started has a task running; one that is only admitted has none. */
  ghost predicate Moving(j: Job) {
    Active(j.phase) ==> (j.phase == Admitted <==> !HasRunning(j.tasks))
  }

  lemma SameMasksSameGraph(ts: seq<Task>, us: seq<Task>)
    requires |ts| == |us| <= MAX_TASKS && forall i :: 0 <= i < |ts| ==> ts[i].deps == us[i].deps
    ensures Graph(ts) == Graph(us)
  {
  }

  lemma GraphEdge(ts: seq<Task>, u: int, v: int)
    requires |ts| <= MAX_TASKS
    ensures (u, v) in Graph(ts) <==> 0 <= u < |ts| && 0 <= v < |ts| && Bit(ts[v].deps, u)
  {
  }

  ghost function Unfinished(ts: seq<Task>): (R: set<int>)
    ensures forall i :: i in R <==> 0 <= i < |ts| && ts[i].state != Completed
  {
    set i | 0 <= i < |ts| && ts[i].state != Completed
  }

  lemma WaitingHasPredecessor(ts: seq<Task>, v: int)
    requires |ts| <= MAX_TASKS && 0 <= v < |ts| && !DepsDone(ts, v)
    ensures HasPredecessor(Graph(ts), Unfinished(ts), v)
  {
  }

  /** When every waiting task waits for something and nothing is under way, all tasks are completed: there is no deadlock. */
  lemma NoDeadlock(ts: seq<Task>)
    requires |ts| <= MAX_TASKS && Acyclic(Graph(ts)) && !Underway(ts)
    requires forall i :: 0 <= i < |ts| ==> ts[i].state != Failed && ts[i].state != Cancelled
    requires forall i :: 0 <= i < |ts| && ts[i].state == Blocked ==> !DepsDone(ts, i)
    ensures AllCompleted(ts)
  {
    hide Bit, Graph, Acyclic, DepsDone, HasPredecessor;
    forall v | v in Unfinished(ts) ensures HasPredecessor(Graph(ts), Unfinished(ts), v) {
      assert ts[v].state == Blocked;
      WaitingHasPredecessor(ts, v);
    }
    if v :| 0 <= v < |ts| && ts[v].state != Completed {
      StuckHasCycle(Graph(ts), Unfinished(ts), v);
    }
  }

  /** Only which tasks are completed decides whether a task may run. */
  lemma SameCompletion(ts: seq<Task>, us: seq<Task>, i: nat)
    requires |ts| == |us| <= MAX_TASKS && i < |ts| && ts[i].deps == us[i].deps
    requires forall j :: 0 <= j < |ts| ==> (ts[j].state == Completed <==> us[j].state == Completed)
    ensures DepsDone(ts, i) <==> DepsDone(us, i)
  {
  }

  // ---------------------------------------------------------------- submitting

  function Fresh(mask: bv16, ready: bool): Task {
    Task(if ready then Ready else Blocked, 0, mask, 0)
  }

  /** The tasks of a newly submitted graph: those without dependencies are ready. */
  ghost predicate Submitted(ts: seq<Task>, masks: seq<bv16>) {
    && |ts| == |masks| <= MAX_TASKS
    && forall i :: 0 <= i < |ts| ==> ts[i] == Fresh(masks[i], NoDeps(masks[i], |ts|))
  }

  ghost function AdmittedTasks(masks: seq<bv16>): (ts: seq<Task>)
    requires |masks| <= MAX_TASKS
    ensures Submitted(ts, masks)
  {
    seq(|masks|, i requires 0 <= i < |masks| => Fresh(masks[i], NoDeps(masks[i], |masks|)))
  }

  lemma SubmitIsSound(ts: seq<Task>, masks: seq<bv16>, kind: RecoveryClass)
    requires Submitted(ts, masks) && ts != [] && Acyclic(DependencyEdges(masks, |masks|))
    ensures Sound(Job(Admitted, kind, ts))
  {
    hide Bit, Acyclic, DependencyEdges, DepsDone;
    assert Masks(ts) == masks;
    if !Underway(ts) {
      forall i | 0 <= i < |ts| && ts[i].state == Blocked ensures !DepsDone(ts, i) {
        NobodyIsCompleted(ts, masks, i);
      }
      assert ts[0].state != Completed;
      NoDeadlock(ts);
    }
  }

  lemma NobodyIsCompleted(ts: seq<Task>, masks: seq<bv16>, i: nat)
    requires Submitted(ts, masks) && i < |ts|
    ensures DepsDone(ts, i) <==> ts[i].state == Ready
  {
  }

  lemma SubmitIsInOrder(ts: seq<Task>, masks: seq<bv16>)
    requires Submitted(ts, masks)
    ensures InOrder(ts)
    ensures (forall i :: 0 <= i < |masks| ==> NamesBelow(masks[i], |masks|)) ==> OwnMasks(ts)
  {
  }

  // ---------------------------------------------------------------- scheduling

  function Launched(t: Task): Task {
    t.(state := Running, launches := t.launches + 1)
  }

  /** Some ready tasks were launched, the first ones first. */
  ghost predicate Schedules(ts: seq<Task>, us: seq<Task>) {
    && |us| == |ts|
    && (forall i :: 0 <= i < |ts| ==> us[i] == ts[i] || (ts[i].state == Ready && us[i] == Launched(ts[i])))
    && (forall i, k :: 0 <= i < k < |ts| && us[k] != ts[k] ==> us[i].state != Ready)
  }

  lemma ScheduleIsSound(j: Job, us: seq<Task>)
    requires Sound(j) && Schedules(j.tasks, us)
    ensures Sound(j.(tasks := us))
    ensures j.phase == Admitted ==> Sound(j.(phase := Executing, tasks := us))
  {
    hide Bit, Acyclic, Graph, DepsDone;
    var ts := j.tasks;
    SameMasksSameGraph(ts, us);
    forall i | 0 <= i < |us| ensures Tallied(us[i], j.kind) {
      assert Tallied(ts[i], j.kind);
    }
    assert AllCompleted(ts) ==> us == ts;
    if Underway(ts) {
      var i :| 0 <= i < |ts| && (ts[i].state == Ready || ts[i].state == Running);
      assert us[i].state == Ready || us[i].state == Running;
    }
  }

  /** A launch leaves a task running, and with room on the node there is one unless nothing was under way. */
  lemma ScheduleRuns(ts: seq<Task>, us: seq<Task>, room: bool)
    requires Schedules(ts, us) && (room && us == ts ==> forall i :: 0 <= i < |us| ==> us[i].state != Ready)
    ensures us != ts ==> HasRunning(us)
    ensures HasRunning(ts) ==> HasRunning(us)
    ensures room && Underway(ts) ==> HasRunning(us)
  {
    if us != ts {
      var i :| 0 <= i < |ts| && us[i] != ts[i];
      assert us[i].state == Running;
    }
    if HasRunning(ts) {
      var i :| 0 <= i < |ts| && ts[i].state == Running;
      assert us[i].state == Running;
    }
  }

  lemma NewTaskDoesNotRun(ts: seq<Task>, t: Task)
    requires t.state != Running
    ensures HasRunning(ts + [t]) <==> HasRunning(ts)
  {
    if HasRunning(ts) {
      var i :| 0 <= i < |ts| && ts[i].state == Running;
      assert (ts + [t])[i].state == Running;
    }
  }

  lemma ScheduleKeepsOrder(ts: seq<Task>, us: seq<Task>)
    requires |ts| <= MAX_TASKS && Schedules(ts, us)
    ensures InOrder(ts) <==> InOrder(us)
    ensures OwnMasks(ts) <==> OwnMasks(us)
  {
  }

  // ---------------------------------------------------------------- completion

  /** Every waiting task whose dependencies are now completed becomes ready. */
  ghost predicate Unblocks(ts: seq<Task>, us: seq<Task>)
    requires |ts| <= MAX_TASKS
  {
    && |us| == |ts|
    && forall i :: 0 <= i < |ts| ==> us[i] == if ts[i].state == Blocked && DepsDone(ts, i) then ts[i].(state := Ready) else ts[i]
  }

  ghost function Released(ts: seq<Task>): (us: seq<Task>)
    requires |ts| <= MAX_TASKS
    ensures Unblocks(ts, us)
  {
    seq(|ts|, i requires 0 <= i < |ts| => if ts[i].state == Blocked && DepsDone(ts, i) then ts[i].(state := Ready) else ts[i])
  }

  lemma UnblockKeepsMasks(ts: seq<Task>, us: seq<Task>)
    requires |ts| <= MAX_TASKS && Unblocks(ts, us)
    ensures |us| == |ts|
    ensures forall i :: 0 <= i < |ts| ==> us[i].deps == ts[i].deps && (us[i].state == Completed <==> ts[i].state == Completed)
    ensures forall i :: 0 <= i < |ts| ==> (DepsDone(us, i) <==> DepsDone(ts, i))
  {
  }

  function Done(ts: seq<Task>, u: nat): seq<Task>
    requires u < |ts|
  {
    ts[u := ts[u].(state := Completed)]
  }

  /** Completing a running task and releasing what waited for it. */
  lemma CompleteIsSound(j: Job, u: nat, us: seq<Task>)
    requires Sound(j) && Active(j.phase) && u < |j.tasks| && j.tasks[u].state == Running && Unblocks(Done(j.tasks, u), us)
    ensures AllCompleted(us) ==> Sound(j.(phase := Finished, tasks := us))
    ensures !AllCompleted(us) ==> Sound(j.(tasks := us))
  {
    hide Bit, Acyclic, Graph, DepsDone;
    var ts := j.tasks;
    UnblockKeepsMasks(Done(ts, u), us);
    SameMasksSameGraph(ts, us);
    forall i | 0 <= i < |us| ensures Tallied(us[i], j.kind) {
      assert Tallied(ts[i], j.kind);
    }
    if !AllCompleted(us) && !Underway(us) {
      assert forall i :: 0 <= i < |us| && us[i].state == Blocked ==> !DepsDone(us, i);
      NoDeadlock(us);
    }
  }

  lemma CompleteKeepsOrder(ts: seq<Task>, u: nat, us: seq<Task>)
    requires |ts| <= MAX_TASKS && u < |ts| && ts[u].state == Running && Unblocks(Done(ts, u), us)
    ensures InOrder(ts) ==> InOrder(us)
    ensures OwnMasks(ts) ==> OwnMasks(us)
  {
  }

  // ---------------------------------------------------------------- failure and cancellation

  /** A failed task is given another try. */
  lemma RetryIsSound(j: Job, u: nat)
    requires Sound(j) && Active(j.phase) && u < |j.tasks| && j.tasks[u].state == Running
    requires j.kind != Irreversible && j.tasks[u].retries < MAX_RETRIES
    ensures var us := j.tasks[u := j.tasks[u].(state := Ready, retries := j.tasks[u].retries + 1)];
      Sound(j.(phase := Recovering, tasks := us)) && (InOrder(j.tasks) ==> InOrder(us)) && (OwnMasks(j.tasks) ==> OwnMasks(us))
  {
    hide Bit, Acyclic, Graph, NamesBelow;
    var ts := j.tasks;
    var us := ts[u := ts[u].(state := Ready, retries := ts[u].retries + 1)];
    SameMasksSameGraph(ts, us);
    assert us[u].state == Ready;
    if InOrder(ts) {
      forall i | 0 <= i < |us| && Started(us[i]) ensures DepsDone(us, i) {
        assert DepsDone(ts, i);
      }
    }
  }

  /** Cancelling stops what is ready or running and nothing else. */
  ghost predicate Cancels(ts: seq<Task>, us: seq<Task>) {
    && |us| == |ts|
    && forall i :: 0 <= i < |ts| ==>
      us[i] == if ts[i].state == Running || ts[i].state == Ready then ts[i].(state := Cancelled) else ts[i]
  }

  /** A cancelled workload is sound, and one that had finished is left as it was. */
  lemma CancelIsSound(j: Job, us: seq<Task>)
    requires Sound(j) && Cancels(j.tasks, us)
    ensures j.phase != Finished ==> Sound(j.(phase := Aborted, tasks := us))
    ensures j.phase == Finished ==> us == j.tasks
    ensures InOrder(j.tasks) ==> InOrder(us)
    ensures OwnMasks(j.tasks) ==> OwnMasks(us)
  {
    hide Bit, Acyclic, Graph, NamesBelow;
    var ts := j.tasks;
    SameMasksSameGraph(ts, us);
    if InOrder(ts) {
      forall i | 0 <= i < |us| && Started(us[i]) ensures DepsDone(us, i) {
        assert us[i] == ts[i] && DepsDone(ts, i);
      }
    }
  }

  /** A task that failed for good no longer counts as under way, in a workload that is given up. */
  lemma FailIsSound(j: Job, u: nat)
    requires Sound(j) && u < |j.tasks| && j.tasks[u].state == Running
    ensures var us := j.tasks[u := j.tasks[u].(state := Failed)];
      Sound(j.(phase := Aborted, tasks := us)) && (InOrder(j.tasks) ==> InOrder(us)) && (OwnMasks(j.tasks) ==> OwnMasks(us))
  {
    hide Bit, Acyclic, Graph, NamesBelow;
    var ts := j.tasks;
    var us := ts[u := ts[u].(state := Failed)];
    SameMasksSameGraph(ts, us);
    if InOrder(ts) {
      forall i | 0 <= i < |us| && Started(us[i]) ensures DepsDone(us, i) {
        assert DepsDone(ts, i);
      }
    }
  }

  // ---------------------------------------------------------------- extension

  /** A downstream task cannot close a cycle when all masks name tasks of the workload. */
  lemma ExtensionAddsNoCycle(ts: seq<Task>, t: Task)
    requires |ts| < MAX_TASKS && Acyclic(Graph(ts)) && OwnMasks(ts) && NamesBelow(t.deps, |ts|)
    ensures Acyclic(Graph(ts + [t]))
  {
    var us, n := ts + [t], |ts|;
    forall v ensures !Reaches(Graph(us), v, v) {
      if Reaches(Graph(us), v, v) {
        var p :| WalkBetween(Graph(us), v, v, p);
        WalkStaysBelow(ts, t, v, v, p);
      }
    }
  }

  /** No walk of the extended graph leaves the new task, so a walk into an old task lies in the old graph. */
  lemma {:induction false} WalkStaysBelow(ts: seq<Task>, t: Task, a: int, b: int, p: seq<int>)
    requires |ts| < MAX_TASKS && OwnMasks(ts) && NamesBelow(t.deps, |ts|) && WalkBetween(Graph(ts + [t]), a, b, p)
    ensures a < |ts| && (b < |ts| ==> Reaches(Graph(ts), a, b))
    decreases |p|
  {
    hide Bit, Graph;
    var us := ts + [t];
    var c := p[1];
    GraphEdge(us, a, c);
    assert c < |ts| ==> us[c] == ts[c];
    assert a < |ts|;
    if |p| > 2 {
      var q := p[1..];
      assert forall i, j :: 0 <= i && j == i + 1 && j < |q| ==> q[i] == p[i + 1] && q[j] == p[j + 1] && (p[i + 1], p[j + 1]) in Graph(us);
      assert WalkBetween(Graph(us), c, b, q);
      WalkStaysBelow(ts, t, c, b, q);
      if b < |ts| {
        GraphEdge(ts, a, c);
        EdgeReaches(Graph(ts), a, c);
        ReachesTransitive(Graph(ts), a, c, b);
      }
    } else if b < |ts| {
      GraphEdge(ts, a, b);
      EdgeReaches(Graph(ts), a, b);
    }
  }

  /** The tasks with one more behind them, ready if it waits for nothing. */
  ghost function Extended(ts: seq<Task>, mask: bv16): seq<Task>
    requires |ts| < MAX_TASKS
  {
    ts + [Fresh(mask, NoDeps(mask, |ts|))]
  }

  /** No started task's mask names the position a new task would get. */
  ghost predicate NextIsUnnamed(ts: seq<Task>)
    requires |ts| < MAX_TASKS
  {
    forall i :: 0 <= i < |ts| && Started(ts[i]) ==> !Bit(ts[i].deps, |ts|)
  }

  /** An added task keeps the order exactly when no started task's mask already names its position. */
  lemma ExtensionKeepsOrderExactly(ts: seq<Task>, mask: bv16)
    requires |ts| < MAX_TASKS && InOrder(ts) && NamesBelow(mask, |ts|)
    ensures InOrder(Extended(ts, mask)) <==> NextIsUnnamed(ts)
  {
    hide Bit;
    var n := |ts|;
    var us := Extended(ts, mask);
    assert us[n].state != Completed && forall i :: 0 <= i < n ==> us[i] == ts[i];
    if i :| 0 <= i < n && Started(ts[i]) && Bit(ts[i].deps, n) {
      assert Started(us[i]) && !DepsDone(us, i);
    } else {
      forall i | 0 <= i < |us| && Started(us[i]) ensures DepsDone(us, i) {
        if i < n {
          assert DepsDone(ts, i);
        }
      }
    }
  }

  lemma ExtendIsSound(j: Job, mask: bv16)
    requires Sound(j) && Active(j.phase) && |j.tasks| < MAX_TASKS && NamesBelow(mask, |j.tasks|)
    ensures var us := Extended(j.tasks, mask);
      && (HasRunning(us) <==> HasRunning(j.tasks))
      && (Acyclic(Graph(us)) ==> Sound(j.(tasks := us)))
      && (OwnMasks(j.tasks) ==> OwnMasks(us) && Acyclic(Graph(us)) && (InOrder(j.tasks) ==> InOrder(us)))
  {
    hide Bit, Acyclic, Graph, DepsDone;
    var ts := j.tasks;
    var us := Extended(ts, mask);
    NewTaskDoesNotRun(ts, us[|ts|]);
    var i :| 0 <= i < |ts| && (ts[i].state == Ready || ts[i].state == Running);
    assert us[i] == ts[i];
    if OwnMasks(ts) {
      ExtensionAddsNoCycle(ts, us[|ts|]);
      assert forall k :: 0 <= k < |ts| ==> NamesBelow(ts[k].deps, |ts|) && !Bit(ts[k].deps, |ts|);
      if InOrder(ts) {
        ExtensionKeepsOrderExactly(ts, mask);
      }
    }
  }
}
