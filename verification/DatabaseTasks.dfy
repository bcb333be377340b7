/**
 The database worker queue (src/databasetasks.cpp) as interleaved steps.

 A step is one region under `taskLock`, one notification, or one query run by the worker outside
 the lock. A notification that finds nobody asleep is lost, and sleepers may wake spuriously.
 */
module DatabaseTasks {
  type Task = nat
  type Caller = nat

  datatype ThreadState = Running | Closing | Terminated

  datatype Worker =
    | NotStarted
    | Checking            // about to take the lock and look at the queue
    | Asleep              // inside taskSignal.wait
    | Busy(task: Task)    // outside the lock, query not yet executed
    | Finishing(task: Task)
    | Leaving             // left the loop, last notification still to come
    | Gone

  datatype Waiter = Looking | Sleeping | Returned

  datatype State = State(
    phase: ThreadState, tasks: seq<Task>, activeTasks: nat, worker: Worker,
    signals: nat,          // addTask calls that still owe their notify_one
    broadcasts: nat,       // shutdown calls that still owe their notify_all
    waiters: map<Caller, Waiter>,
    accepted: seq<Task>,   // every task addTask answered true for, in order
    done: seq<Task>)       // every query executed, in order

  const INITIAL := State(Terminated, [], 0, NotStarted, 0, 0, map[], [], [])

  datatype Step =
    | Launch
    | Add(task: Task)
    | NotifyOne
    | NotifyAll
    | Look
    | Execute
    | Finish
    | Leave
    | Spurious
    | SpuriousWaiter(c: Caller)
    | Stop
    | Terminate
    | CallFlush(c: Caller)
    | FlushLook(c: Caller)

  predicate Idle(s: State) { s.tasks == [] && s.activeTasks == 0 }

  function WakeWorker(w: Worker): (r: Worker) { if w.Asleep? then Checking else w }

  function WakeWaiters(m: map<Caller, Waiter>): (r: map<Caller, Waiter>) {
    map c | c in m :: if m[c].Sleeping? then Looking else m[c]
  }

  predicate Enabled(s: State, e: Step) {
    match e
    case Launch => s.worker.NotStarted?
    case Add(_) => true
    case NotifyOne => s.signals > 0
    case NotifyAll => s.broadcasts > 0
    case Look => s.worker.Checking?
    case Execute => s.worker.Busy?
    case Finish => s.worker.Finishing? && s.activeTasks > 0
    case Leave => s.worker.Leaving?
    case Spurious => s.worker.Asleep?
    case SpuriousWaiter(c) => c in s.waiters && s.waiters[c].Sleeping?
    case Stop => true
    case Terminate => true
    case CallFlush(c) => c !in s.waiters || s.waiters[c].Returned?
    case FlushLook(c) => c in s.waiters && s.waiters[c].Looking?
  }

  /** The worker looks at the queue under the lock: sleep, leave, or take the front. */
  function Looked(s: State): (r: State) {
    if s.tasks == [] then s.(worker := if s.phase.Terminated? then Leaving else Asleep)
    else s.(worker := Busy(s.tasks[0]), tasks := s.tasks[1..], activeTasks := s.activeTasks + 1)
  }

  function Added(s: State, task: Task): (r: State) {
    if s.phase.Running? then
      s.(tasks := s.tasks + [task], accepted := s.accepted + [task],
         signals := s.signals + if s.tasks == [] then 1 else 0)
    else s
  }

  function Finished(s: State): (r: State)
    requires s.activeTasks > 0
  {
    var t := s.(worker := Checking, activeTasks := s.activeTasks - 1);
    if Idle(t) then t.(waiters := WakeWaiters(t.waiters)) else t
  }

  function Next(s: State, e: Step): (r: State)
    requires Enabled(s, e)
  {
    match e
    case Launch => s.(phase := Running, worker := Checking)
    case Add(task) => Added(s, task)
    case NotifyOne => s.(signals := s.signals - 1, worker := WakeWorker(s.worker))
    case NotifyAll => s.(broadcasts := s.broadcasts - 1, worker := WakeWorker(s.worker))
    case Look => Looked(s)
    case Execute => s.(worker := Finishing(s.worker.task), done := s.done + [s.worker.task])
    case Finish => Finished(s)
    case Leave => s.(worker := Gone, waiters := WakeWaiters(s.waiters))
    case Spurious => s.(worker := Checking)
    case SpuriousWaiter(c) => s.(waiters := s.waiters[c := Looking])
    case Stop => s.(phase := Closing)
    case Terminate => s.(phase := Terminated, broadcasts := s.broadcasts + 1)
    case CallFlush(c) => s.(waiters := s.waiters[c := Looking])
    case FlushLook(c) => s.(waiters := s.waiters[c := if Idle(s) then Returned else Sleeping])
  }

  // ---- Invariant ----

  /** The task the worker has taken and not yet executed. */
  function InHand(w: Worker): (r: seq<Task>) { if w.Busy? then [w.task] else [] }

  predicate Away(w: Worker) { w.NotStarted? || w.Leaving? || w.Gone? }

  ghost predicate Inv(s: State) {
    && s.accepted == s.done + InHand(s.worker) + s.tasks
    && s.activeTasks == (if s.worker.Busy? || s.worker.Finishing? then 1 else 0)
    && (Away(s.worker) ==> s.tasks == [] && !s.phase.Running?)
    && (s.worker.Asleep? && s.tasks != [] ==> s.signals > 0)
    && (s.worker.Asleep? && s.phase.Terminated? ==> s.broadcasts > 0)
    && forall c :: c in s.waiters && s.waiters[c].Sleeping? ==> !Idle(s)
  }

  lemma NextKeeps(s: State, e: Step)
    requires Inv(s) && Enabled(s, e)
    ensures Inv(Next(s, e))
  {
    var r := Next(s, e);
    match e {
      case Look =>
        if s.tasks != [] {
          assert s.tasks == [s.tasks[0]] + s.tasks[1..];
        }
      case Add(task) =>
        if s.phase.Running? {
          assert s.done + InHand(s.worker) + (s.tasks + [task]) == s.accepted + [task];
        }
      case _ =>
    }
  }

  ghost predicate Run(states: seq<State>, steps: seq<Step>) {
    && |states| == |steps| + 1 && states[0] == INITIAL
    && forall k :: 0 <= k < |steps| ==> Enabled(states[k], steps[k]) && states[k + 1] == Next(states[k], steps[k])
  }

  lemma {:induction false} RunKeeps(states: seq<State>, steps: seq<Step>, k: nat)
    requires Run(states, steps) && k <= |steps|
    ensures Inv(states[k])
  {
    if k > 0 {
      RunKeeps(states, steps, k - 1);
      NextKeeps(states[k - 1], steps[k - 1]);
      assert states[k - 1 + 1] == Next(states[k - 1], steps[k - 1]);
    }
  }

  /**
   Order and number of executions: in every interleaving the queries executed so far are exactly the
   first accepted ones, in order, each at the position at which it was accepted.
   */
  lemma ExecutedInOrder(states: seq<State>, steps: seq<Step>, k: nat)
    requires Run(states, steps) && k <= |steps|
    ensures |states[k].done| <= |states[k].accepted|
    ensures states[k].done == states[k].accepted[..|states[k].done|]
  {
    RunKeeps(states, steps, k);
    var s := states[k];
    assert s.accepted == s.done + (InHand(s.worker) + s.tasks);
  }

  /** What was accepted or executed stays so. */
  lemma {:induction false} HistoryGrows(states: seq<State>, steps: seq<Step>, i: nat, k: nat)
    requires Run(states, steps) && i <= k <= |steps|
    ensures states[i].accepted <= states[k].accepted && states[i].done <= states[k].done
    decreases k - i
  {
    if i < k {
      HistoryGrows(states, steps, i, k - 1);
      assert states[k - 1 + 1] == Next(states[k - 1], steps[k - 1]);
    }
  }

  /** flush returns at step k only if every task accepted by then has been executed. */
  lemma FlushMeansDone(states: seq<State>, steps: seq<Step>, k: nat, c: Caller)
    requires Run(states, steps) && k < |steps| && steps[k] == FlushLook(c)
    requires c in states[k + 1].waiters && states[k + 1].waiters[c].Returned?
    ensures states[k + 1].done == states[k + 1].accepted
    ensures forall i :: 0 <= i <= k ==> states[i].accepted <= states[k + 1].done
  {
    RunKeeps(states, steps, k);
    assert states[k + 1] == Next(states[k], steps[k]);
    forall i | 0 <= i <= k ensures states[i].accepted <= states[k + 1].done {
      HistoryGrows(states, steps, i, k + 1);
    }
  }

  /** Once the worker was told to stop, nothing more is accepted. */
  lemma {:induction false} NothingAfterStop(states: seq<State>, steps: seq<Step>, i: nat, k: nat)
    requires Run(states, steps) && i <= k <= |steps|
    requires !states[i].phase.Running? && !states[i].worker.NotStarted?
    ensures !states[k].phase.Running? && !states[k].worker.NotStarted? && states[k].accepted == states[i].accepted
    decreases k - i
  {
    if i < k {
      NothingAfterStop(states, steps, i, k - 1);
      assert states[k - 1 + 1] == Next(states[k - 1], steps[k - 1]);
    }
  }

  /** shutdown: terminate at step i, flush returns at step k; from then on every task ever accepted is executed. */
  lemma ShutdownMeansDone(states: seq<State>, steps: seq<Step>, i: nat, k: nat, c: Caller, m: nat)
    requires Run(states, steps) && i < k < m <= |steps|
    requires steps[i] == Terminate && !states[i].worker.NotStarted? && steps[k] == FlushLook(c)
    requires c in states[k + 1].waiters && states[k + 1].waiters[c].Returned?
    ensures states[m].done == states[m].accepted == states[i].accepted
  {
    assert states[i + 1] == Next(states[i], steps[i]);
    FlushMeansDone(states, steps, k, c);
    NothingAfterStop(states, steps, i + 1, k + 1);
    NothingAfterStop(states, steps, i + 1, m);
    HistoryGrows(states, steps, k + 1, m);
    RunKeeps(states, steps, m);
    ExecutedInOrder(states, steps, m);
  }

  // ---- What is accepted, and what flush callers do ----

  /** The worker was started before step k, and not told to stop since. */
  ghost predicate Serving(steps: seq<Step>, k: nat)
    requires k <= |steps|
  {
    exists j :: 0 <= j < k && steps[j].Launch? && forall i :: j < i < k ==> !steps[i].Stop? && !steps[i].Terminate?
  }

  /** The tasks handed to addTask in the first k steps while the worker was serving. */
  ghost function Offered(steps: seq<Step>, k: nat): (tasks: seq<Task>)
    requires k <= |steps|
  {
    if k == 0 then []
    else Offered(steps, k - 1) + if steps[k - 1].Add? && Serving(steps, k - 1) then [steps[k - 1].task] else []
  }

  lemma ServingStep(steps: seq<Step>, k: nat)
    requires k < |steps|
    ensures Serving(steps, k + 1) <==>
            steps[k].Launch? || (!steps[k].Stop? && !steps[k].Terminate? && Serving(steps, k))
  {
    if Serving(steps, k + 1) && !steps[k].Launch? {
      var j :| 0 <= j < k + 1 && steps[j].Launch? &&
               forall i :: j < i < k + 1 ==> !steps[i].Stop? && !steps[i].Terminate?;
      assert 0 <= j < k && steps[j].Launch?;
    }
  }

  /**
   Main result on acceptance: in every run exactly the tasks offered between the start of the worker and
   the stop are accepted, in the order of the calls.
   */
  lemma {:induction false} AcceptedExact(states: seq<State>, steps: seq<Step>, k: nat)
    requires Run(states, steps) && k <= |steps|
    ensures states[k].phase.Running? <==> Serving(steps, k)
    ensures states[k].accepted == Offered(steps, k)
  {
    if k > 0 {
      AcceptedExact(states, steps, k - 1);
      ServingStep(steps, k - 1);
      assert states[k - 1 + 1] == Next(states[k - 1], steps[k - 1]);
    }
  }

  /**
   What one step does to one flush caller: its own calls start it, let it return when nothing is left or
   put it to sleep; the end of the last task and the end of the worker wake sleepers; nothing else touches it.
   */
  lemma CallerExact(s: State, e: Step, c: Caller)
    requires Enabled(s, e)
    ensures var t := Next(s, e);
            && (e == CallFlush(c) ==> c in t.waiters && t.waiters[c].Looking?)
            && (e == FlushLook(c) ==> c in t.waiters)
            && (e == FlushLook(c) ==>
                  t.waiters[c] == if s.tasks == [] && s.activeTasks == 0 then Returned else Sleeping)
            && (e != CallFlush(c) && e != FlushLook(c) ==> (c in t.waiters <==> c in s.waiters))
            && (e != CallFlush(c) && e != FlushLook(c) && c in s.waiters ==>
                  t.waiters[c] ==
                    if s.waiters[c].Sleeping? &&
                       (e == SpuriousWaiter(c) || e.Leave? || (e.Finish? && s.tasks == [] && s.activeTasks == 1))
                    then Looking else s.waiters[c])
  {
  }

  // ---- No lost wake-up ----

  /** Steps the worker and the owed notifications take by themselves. */
  predicate Internal(e: Step) {
    e.NotifyOne? || e.NotifyAll? || e.Look? || e.Execute? || e.Finish? || e.Leave?
  }

  function Stage(w: Worker): (n: nat) {
    match w
    case NotStarted => 0
    case Gone => 0
    case Asleep => 1
    case Leaving => 1
    case Checking => 2
    case Finishing(_) => 3
    case Busy(_) => 4
  }

  /** Work left, counted so that every internal step uses some of it up. */
  function Work(s: State): (n: nat) {
    4 * |s.tasks| + Stage(s.worker) + 2 * s.signals + 2 * s.broadcasts
  }

  lemma InternalProgress(s: State, e: Step)
    requires Enabled(s, e) && Internal(e)
    ensures Work(Next(s, e)) < Work(s)
  {
  }

  /** While an accepted task is not finished, something internal can happen. */
  lemma NeverStuck(s: State)
    requires Inv(s) && (!Idle(s) || s.done != s.accepted)
    ensures exists e :: Internal(e) && Enabled(s, e)
  {
    assert s.tasks == [] && !s.worker.Busy? ==> s.accepted == s.done;
    match s.worker {
      case Checking => assert Internal(Look) && Enabled(s, Look);
      case Asleep =>
        assert Internal(NotifyOne) && Enabled(s, NotifyOne);
      case Busy(_) => assert Internal(Execute) && Enabled(s, Execute);
      case Finishing(_) => assert Internal(Finish) && Enabled(s, Finish);
      case _ =>
    }
  }

  /** A maximal sequence of internal steps from s, in any order the schedule picks. */
  ghost predicate Drained(path: seq<State>, steps: seq<Step>, s: State) {
    && |path| == |steps| + 1 && path[0] == s
    && (forall k :: 0 <= k < |steps| ==>
          Internal(steps[k]) && Enabled(path[k], steps[k]) && path[k + 1] == Next(path[k], steps[k]))
    && forall e :: Internal(e) ==> !Enabled(path[|steps|], e)
  }

  /**
   No wake-up is lost. From any reachable state, however the internal steps are scheduled, there are
   at most Work(s) of them, and once none is left every accepted task has been executed and no flush
   caller is asleep.
   */
  lemma {:induction false} DrainFinishesEverything(s: State, path: seq<State>, steps: seq<Step>)
    requires Inv(s) && Drained(path, steps, s)
    ensures |steps| <= Work(s)
    ensures var last := path[|steps|];
            && last.done == last.accepted == s.accepted && Idle(last)
            && forall c :: c in last.waiters ==> !last.waiters[c].Sleeping?
    decreases |steps|
  {
    if steps == [] {
      if !Idle(s) || s.done != s.accepted {
        NeverStuck(s);
        assert false;
      }
    } else {
      assert path[0 + 1] == Next(path[0], steps[0]);
      InternalProgress(s, steps[0]);
      NextKeeps(s, steps[0]);
      var path', steps' := path[1..], steps[1..];
      forall k | 0 <= k < |steps'| ensures Internal(steps'[k]) && Enabled(path'[k], steps'[k]) &&
          path'[k + 1] == Next(path'[k], steps'[k]) {
        assert path[k + 1 + 1] == Next(path[k + 1], steps[k + 1]);
      }
      DrainFinishesEverything(path[1], path', steps');
    }
  }

  // ---- The object: one method per region under the lock ----

  class Queue {
    var phase: ThreadState
    var tasks: seq<Task>
    var activeTasks: nat
    ghost var rest: State

    /** The queue's own fields in place of those of the surrounding state. */
    ghost function View(): (s: State)
      reads this
    {
      rest.(phase := phase, tasks := tasks, activeTasks := activeTasks)
    }

    constructor ()
      ensures View() == INITIAL
    {
      phase, tasks, activeTasks, rest := Terminated, [], 0, INITIAL;
    }

    /** The locked part of addTask; the caller notifies afterwards iff `signal`. */
    method AddTask(task: Task) returns (accepted: bool, signal: bool)
      modifies this
      ensures View() == Next(old(View()), Add(task))
      ensures accepted == old(phase).Running?
      ensures accepted <==> View().accepted == old(View().accepted) + [task]
      ensures signal == (View().signals > old(View().signals))
    {
      signal, accepted := false, false;
      ghost var s := View();
      if phase.Running? {
        signal := tasks == [];
        tasks := tasks + [task];
        accepted := true;
      }
      rest := Added(s, task);
    }

    /** From acquiring the lock to running a task, sleeping or leaving the loop. */
    method TakeTask() returns (task: seq<Task>)
      requires View().worker.Checking?
      modifies this
      ensures View() == Next(old(View()), Look)
      ensures task == if old(tasks) == [] then [] else [old(tasks)[0]]
    {
      ghost var s := View();
      task := [];
      if tasks != [] {
        task := [tasks[0]];
        tasks := tasks[1..];
        activeTasks := activeTasks + 1;
      }
      rest := Looked(s);
    }

    method FinishTask() returns (notify: bool)
      requires View().worker.Finishing? && activeTasks > 0
      modifies this
      ensures View() == Next(old(View()), Finish)
      ensures notify == Idle(View())
    {
      ghost var s := View();
      activeTasks := activeTasks - 1;
      notify := tasks == [] && activeTasks == 0;
      rest := Finished(s);
    }

    method FlushPredicate() returns (done: bool)
      ensures done == Idle(View())
      ensures Inv(View()) && done ==> View().done == View().accepted
    {
      done := tasks == [] && activeTasks == 0;
    }
  }
}
