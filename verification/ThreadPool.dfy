/** `CThreadPool`: a queue of tasks, a close flag and workers that sleep on a condition. Each
    section under the lock is one step; a wake-up without reason may come at any time. */
module ThreadPool {
  import opened Bytes

  datatype Worker =
    | Ready              // about to take the lock
    | Sleeping           // in the condition's wait
    | Notified           // woken, about to retake the lock
    | Running(task: nat)
    | Returned

  /** Tasks are numbered in the order in which they were accepted. */
  datatype State = State(closed: bool, accepted: nat, queue: seq<nat>, workers: seq<Worker>,
                         started: seq<nat>, finished: seq<nat>)

  datatype Step =
    | Assign(isNull: bool, w: nat)   // `w` is the worker that the notification wakes
    | Close
    | Wake(w: nat)
    | Enter(w: nat)                // the loop with the lock held, up to the next wait or unlock
    | Finish(w: nat)

  predicate Asleep(ws: seq<Worker>, w: nat) { w < |ws| && ws[w] == Sleeping }

  predicate Enabled(s: State, t: Step) {
    match t
    case Assign(_, w) => Sleeping in s.workers ==> Asleep(s.workers, w)
    case Close => true
    case Wake(w) => Asleep(s.workers, w)
    case Enter(w) => w < |s.workers| && (s.workers[w] == Ready || s.workers[w] == Notified)
    case Finish(w) => w < |s.workers| && s.workers[w].Running?
  }

  function Initial(threads: nat): State { State(false, 0, [], seq(threads, _ => Ready), [], []) }

  /** A notification wakes worker `w`, if it sleeps. */
  function Woken(ws: seq<Worker>, w: nat): (r: seq<Worker>)
    ensures |r| == |ws|
  {
    if Asleep(ws, w) then ws[w := Notified] else ws
  }

  function AllWoken(ws: seq<Worker>): (r: seq<Worker>)
    ensures |r| == |ws|
    ensures forall i :: 0 <= i < |ws| ==> r[i] == if ws[i] == Sleeping then Notified else ws[i]
  {
    seq(|ws|, i requires 0 <= i < |ws| => if ws[i] == Sleeping then Notified else ws[i])
  }

  function Next(s: State, t: Step): State
    requires Enabled(s, t)
  {
    match t
    case Assign(isNull, w) =>
      if s.closed || isNull then s
      else s.(accepted := s.accepted + 1, queue := s.queue + [s.accepted], workers := Woken(s.workers, w))
    case Close => s.(closed := true, workers := AllWoken(s.workers))
    case Wake(w) => s.(workers := s.workers[w := Notified])
    case Enter(w) =>
      if s.queue != [] then
        s.(queue := s.queue[1..], workers := s.workers[w := Running(s.queue[0])], started := s.started + [s.queue[0]])
      else s.(workers := s.workers[w := if s.closed then Returned else Sleeping])
    case Finish(w) => s.(workers := s.workers[w := Ready], finished := s.finished + [s.workers[w].task])
  }

  // ---------------------------------------------------------------- the object

  /** The pool with its workers' positions; every method is a section under the lock, or the
      end of a task. */
  class CThreadPool {
    var closed: bool
    var queue: seq<nat>
    var workers: seq<Worker>
    ghost var accepted: nat
    ghost var started: seq<nat>
    ghost var finished: seq<nat>

    ghost function View(): State
      reads this
    {
      State(closed, accepted, queue, workers, started, finished)
    }

    constructor (threads: nat)
      ensures View() == Initial(threads)
    {
      closed, queue := false, [];
      workers := seq(threads, _ => Ready);
      accepted, started, finished := 0, [], [];
    }

    method Assign(task: nat, isNull: bool, w: nat)
      requires Enabled(View(), Step.Assign(isNull, w)) && task == accepted
      modifies this
      ensures View() == Next(old(View()), Step.Assign(isNull, w))
    {
      if !closed && !isNull {
        queue := queue + [task];
        accepted := accepted + 1;
        if w < |workers| && workers[w] == Sleeping { workers := workers[w := Notified]; }
      }
    }

    method Close()
      modifies this
      ensures View() == Next(old(View()), Step.Close)
    {
      closed := true;
      for i := 0 to |workers|
        invariant closed && queue == old(queue) && accepted == old(accepted)
        invariant started == old(started) && finished == old(finished)
        invariant |workers| == |old(workers)|
        invariant forall k :: 0 <= k < |workers| ==>
                    workers[k] == if k < i then AllWoken(old(workers))[k] else old(workers)[k]
      {
        if workers[i] == Sleeping { workers := workers[i := Notified]; }
      }
    }

    /** The worker's loop head: takes the first task, returns, or goes to sleep. */
    method Enter(w: nat)
      requires Enabled(View(), Step.Enter(w))
      modifies this
      ensures View() == Next(old(View()), Step.Enter(w))
    {
      if queue == [] {
        workers := workers[w := if closed then Returned else Sleeping];
      } else {
        var task := queue[0];
        queue := queue[1..];
        workers := workers[w := Running(task)];
        started := started + [task];
      }
    }
  }

  // ---------------------------------------------------------------- invariant

  /** Tasks are started in the order accepted: first the started ones, then the queue. */
  predicate Fifo(s: State) {
    && |s.started| + |s.queue| == s.accepted
    && (forall i :: 0 <= i < |s.started| ==> s.started[i] == i)
    && (forall i :: 0 <= i < |s.queue| ==> s.queue[i] == |s.started| + i)
  }

  ghost predicate RunBy(s: State, task: nat) { exists w :: 0 <= w < |s.workers| && s.workers[w] == Running(task) }

  /** Every started task is running on one worker or has finished once, never both. */
  ghost predicate Accounted(s: State) {
    && (forall i :: 0 <= i < |s.finished| ==> s.finished[i] < |s.started|)
    && (forall w :: 0 <= w < |s.workers| && s.workers[w].Running? ==>
          s.workers[w].task < |s.started| && s.workers[w].task !in s.finished)
    && (forall v, w :: 0 <= v < w < |s.workers| && s.workers[v].Running? ==> s.workers[v] != s.workers[w])
    && (forall i, j :: 0 <= i < j < |s.finished| ==> s.finished[i] != s.finished[j])
    && (forall t: nat :: t < |s.started| ==> t in s.finished || RunBy(s, t))
  }

  function Count(ws: seq<Worker>): nat {
    if ws == [] then 0 else Count(ws[..|ws| - 1]) + (if ws[|ws| - 1] == Notified then 1 else 0)
  }

  /** While a worker sleeps, enough others have been notified to take every queued task; a
      worker has returned only after the close, with the queue empty. */
  predicate NotStranded(s: State) {
    && (Sleeping in s.workers ==> !s.closed && |s.queue| <= Count(s.workers))
    && (Returned in s.workers ==> s.closed && s.queue == [])
  }

  ghost predicate Inv(s: State) { Fifo(s) && Accounted(s) && NotStranded(s) }

  lemma {:induction false} CountUpdate(ws: seq<Worker>, i: nat, w: Worker)
    requires i < |ws|
    ensures Count(ws[i := w]) + (if ws[i] == Notified then 1 else 0) == Count(ws) + (if w == Notified then 1 else 0)
  {
    var n := |ws| - 1;
    if i == n {
      assert ws[i := w][..n] == ws[..n];
    } else {
      assert ws[i := w][..n] == ws[..n][i := w];
      CountUpdate(ws[..n], i, w);
    }
  }

  lemma {:induction false} CountPositive(ws: seq<Worker>)
    ensures Count(ws) > 0 <==> Notified in ws
  {
    if ws != [] {
      CountPositive(ws[..|ws| - 1]);
      assert ws == ws[..|ws| - 1] + [ws[|ws| - 1]];
    }
  }

  lemma FifoKept(s: State, t: Step)
    requires Fifo(s) && Enabled(s, t)
    ensures Fifo(Next(s, t))
  {
  }

  lemma StrandedKept(s: State, t: Step)
    requires NotStranded(s) && Enabled(s, t)
    ensures NotStranded(Next(s, t))
  {
    if t.Assign? && Asleep(s.workers, t.w) { CountUpdate(s.workers, t.w, Notified); }
    if t.Wake? { CountUpdate(s.workers, t.w, Notified); }
    if t.Enter? && s.queue != [] { CountUpdate(s.workers, t.w, Running(s.queue[0])); }
    if t.Enter? && s.queue == [] { CountUpdate(s.workers, t.w, Sleeping); }
    if t.Finish? { CountUpdate(s.workers, t.w, Ready); }
  }

  /** A worker that changes without starting or finishing a task. */
  lemma OtherStays(s: State, n: State)
    requires Accounted(s) && n.started == s.started && n.finished == s.finished && |n.workers| == |s.workers|
    requires forall w :: 0 <= w < |s.workers| ==>
               n.workers[w] == s.workers[w] || (!n.workers[w].Running? && !s.workers[w].Running?)
    ensures Accounted(n)
  {
    forall t: nat | t < |n.started| && t !in n.finished ensures RunBy(n, t) {
      assert RunBy(s, t);
      var w :| 0 <= w < |s.workers| && s.workers[w] == Running(t);
      assert n.workers[w] == Running(t);
    }
  }

  lemma StartAccounted(s: State, w: nat, task: nat)
    requires Fifo(s) && Accounted(s) && Enabled(s, Enter(w)) && s.queue != [] && task == s.queue[0]
    ensures Accounted(Next(s, Enter(w)))
  {
    var n := Next(s, Enter(w));
    assert task == |s.started|;
    forall t: nat | t < |n.started| && t !in n.finished ensures RunBy(n, t) {
      if t == task {
        assert n.workers[w] == Running(t);
      } else {
        assert RunBy(s, t);
        var v :| 0 <= v < |s.workers| && s.workers[v] == Running(t);
        assert n.workers[v] == Running(t);
      }
    }
  }

  lemma FinishAccounted(s: State, w: nat)
    requires Accounted(s) && Enabled(s, Finish(w))
    ensures Accounted(Next(s, Finish(w)))
  {
    var n, task := Next(s, Finish(w)), s.workers[w].task;
    assert n.finished[|s.finished|] == task;
    assert forall t :: t in s.finished ==> t in n.finished;
    forall t: nat | t < |n.started| && t !in n.finished ensures RunBy(n, t) {
      assert RunBy(s, t);
      var v :| 0 <= v < |s.workers| && s.workers[v] == Running(t);
      assert n.workers[v] == Running(t);
    }
  }

  lemma AccountedKept(s: State, t: Step)
    requires Fifo(s) && Accounted(s) && Enabled(s, t)
    ensures Accounted(Next(s, t))
  {
    if t.Enter? && s.queue != [] {
      StartAccounted(s, t.w, s.queue[0]);
    } else if t.Finish? {
      FinishAccounted(s, t.w);
    } else {
      hide Accounted, Fifo;
      OtherStays(s, Next(s, t));
    }
  }

  function Run(threads: nat, steps: seq<Step>): Option<State> {
    if steps == [] then Some(Initial(threads))
    else
      match Run(threads, steps[..|steps| - 1])
      case None => None
      case Some(s) => if Enabled(s, steps[|steps| - 1]) then Some(Next(s, steps[|steps| - 1])) else None
  }

  lemma {:induction false} RunKeepsInv(threads: nat, steps: seq<Step>)
    requires Run(threads, steps).Some?
    ensures Inv(Run(threads, steps).value) && |Run(threads, steps).value.workers| == threads
  {
    hide Fifo, Accounted, NotStranded, Enabled, Next;
    if steps == [] {
      InitialInv(threads);
    } else {
      var front, t := steps[..|steps| - 1], steps[|steps| - 1];
      RunKeepsInv(threads, front);
      var s := Run(threads, front).value;
      FifoKept(s, t);
      AccountedKept(s, t);
      StrandedKept(s, t);
      SameWorkers(s, t);
    }
  }

  lemma InitialInv(threads: nat)
    ensures Inv(Initial(threads))
  {
  }

  lemma SameWorkers(s: State, t: Step)
    requires Enabled(s, t)
    ensures |Next(s, t).workers| == |s.workers|
  {
  }

  /** How many tasks were offered before the first close, null pointers not counted. */
  function Offered(steps: seq<Step>): nat {
    if steps == [] then 0
    else
      var front, t := steps[..|steps| - 1], steps[|steps| - 1];
      Offered(front) + (if t.Assign? && !t.isNull && Close !in front then 1 else 0)
  }

  /** Exactly the tasks offered before a close are accepted. */
  lemma {:induction false} AcceptedBeforeClose(threads: nat, steps: seq<Step>)
    requires Run(threads, steps).Some?
    ensures var s := Run(threads, steps).value; s.accepted == Offered(steps) && (s.closed <==> Close in steps)
  {
    hide Enabled, Next;
    if steps != [] {
      var front, t := steps[..|steps| - 1], steps[|steps| - 1];
      AcceptedBeforeClose(threads, front);
      AcceptedStep(Run(threads, front).value, t);
      assert steps == front + [t];
    }
  }

  lemma AcceptedStep(s: State, t: Step)
    requires Enabled(s, t)
    ensures Next(s, t).closed <==> s.closed || t == Close
    ensures Next(s, t).accepted == s.accepted + (if t.Assign? && !t.isNull && !s.closed then 1 else 0)
  {
  }

  /** In every reachable state the accepted tasks are, in order, the started ones and the
      queued ones; every started one is running on exactly one worker or has finished once. */
  lemma TasksConserved(threads: nat, steps: seq<Step>, task: nat)
    requires Run(threads, steps).Some?
    ensures var s := Run(threads, steps).value;
            && s.started + s.queue == seq(s.accepted, i => i)
            && (task < s.accepted <==> task in s.queue || RunBy(s, task) || task in s.finished)
            && !(task in s.queue && RunBy(s, task)) && !(task in s.queue && task in s.finished)
            && !(RunBy(s, task) && task in s.finished)
            && (forall i, j :: 0 <= i < j < |s.finished| ==> s.finished[i] != s.finished[j])
            && (forall v, w :: 0 <= v < w < |s.workers| && s.workers[v] == Running(task) ==>
                  s.workers[w] != Running(task))
  {
    RunKeepsInv(threads, steps);
    var s := Run(threads, steps).value;
    hide Run, NotStranded, Fifo, Accounted, RunBy;
    InOrder(s);
    OneOfThree(s, task);
    OnlyOnce(s, task);
  }

  lemma InOrder(s: State)
    requires Fifo(s)
    ensures s.started + s.queue == seq(s.accepted, i => i)
  {
  }

  lemma OneOfThree(s: State, task: nat)
    requires Fifo(s) && Accounted(s)
    ensures task < s.accepted <==> task in s.queue || RunBy(s, task) || task in s.finished
    ensures !(task in s.queue && RunBy(s, task)) && !(task in s.queue && task in s.finished)
    ensures !(RunBy(s, task) && task in s.finished)
  {
    assert |s.started| <= task < s.accepted ==> s.queue[task - |s.started|] == task;
  }

  lemma OnlyOnce(s: State, task: nat)
    requires Accounted(s)
    ensures forall i, j :: 0 <= i < j < |s.finished| ==> s.finished[i] != s.finished[j]
    ensures forall v, w :: 0 <= v < w < |s.workers| && s.workers[v] == Running(task) ==> s.workers[w] != Running(task)
  {
  }

  /** No task is stranded: while some worker sleeps, the queue is no longer than the number
      of workers that were notified and have yet to take the lock. */
  lemma NoTaskStranded(threads: nat, steps: seq<Step>)
    requires Run(threads, steps).Some?
    ensures var s := Run(threads, steps).value;
            Sleeping in s.workers ==> |s.queue| <= Count(s.workers)
  {
    RunKeepsInv(threads, steps);
    hide Run, Fifo, Accounted;
  }

  /** No worker can move: each sleeps or has returned. */
  predicate AtRest(s: State) {
    forall w :: 0 <= w < |s.workers| ==> s.workers[w] == Sleeping || s.workers[w] == Returned
  }

  /** A pool with at least one worker comes to rest only when every accepted task has run;
      after a close, only when every worker has returned as well. */
  lemma AllTasksRun(threads: nat, steps: seq<Step>)
    requires Run(threads, steps).Some? && AtRest(Run(threads, steps).value) && threads > 0
    ensures var s := Run(threads, steps).value;
            && s.queue == [] && (forall task: nat :: task < s.accepted ==> task in s.finished)
            && (s.closed <==> forall w :: 0 <= w < |s.workers| ==> s.workers[w] == Returned)
  {
    RunKeepsInv(threads, steps);
    var s := Run(threads, steps).value;
    hide Run;
    CountPositive(s.workers);
    assert s.workers[0] in s.workers;
    assert forall w :: 0 <= w < |s.workers| ==> s.workers[w] in s.workers;
    forall task: nat | task < s.accepted ensures task in s.finished {
      assert !RunBy(s, task);
    }
  }

  /** Without workers nothing ever runs. */
  lemma {:induction false} NoWorkersNoTasks(steps: seq<Step>)
    requires Run(0, steps).Some?
    ensures var s := Run(0, steps).value; s.started == s.finished == []
  {
    hide Next, Enabled, Inv;
    if steps != [] {
      var front, t := steps[..|steps| - 1], steps[|steps| - 1];
      NoWorkersNoTasks(front);
      RunKeepsInv(0, front);
      NoWorkersStep(Run(0, front).value, t);
    }
  }

  lemma NoWorkersStep(s: State, t: Step)
    requires s.workers == [] && Enabled(s, t)
    ensures Next(s, t).started == s.started && Next(s, t).finished == s.finished
  {
  }
}
