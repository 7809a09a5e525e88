/**
 The tracking of a refresh in BackgroundTaskDock.tsx: a poll effect that decides, from what Power BI reports
 and from how much time has passed, when a task is over.  Times are milliseconds.
 */
module RefreshDock {
  import opened Options

  const NEW_RESULT_MS := 20_000
  const CANCEL_TIMEOUT_MS := 5 * 60_000
  const SILENCE_TIMEOUT_MS := 10 * 60_000

  datatype TaskStatus = Pending | Cancelling | Cancelled | Success | Error

  datatype Task = Task(status: TaskStatus, seenRunning: bool, startedAt: Option<int>, cancelRequestedAt: Option<int>)

  /** What a poll answers: the last known refresh status, and whether one is in progress. */
  datatype Report = Report(status: string, inProgress: bool)

  predicate Active(t: Task) {
    t.status == Pending || t.status == Cancelling
  }

  function Since(time: Option<int>, now: int): int {
    match time case Some(t) => now - t case None => 0
  }

  /** The status a terminal report stands for. */
  function Verdict(status: string): Option<TaskStatus> {
    match status
    case "Completed" => Some(Success)
    case "Cancelled" => Some(Cancelled)
    case "Failed" => Some(Error)
    case "Disabled" => Some(Error)
    case _ => None
  }

  class TaskRow {
    var task: Task

    constructor (startedAt: Option<int>)
      ensures task == Task(Pending, false, startedAt, None)
    {
      task := Task(Pending, false, startedAt, None);
    }

    /** The poll effect. */
    method Poll(data: Option<Report>, now: int)
      modifies this
      ensures task == AfterPoll(old(task), data, now)
    {
      if task.status != Pending && task.status != Cancelling { return; }
      var elapsed, cancelElapsed := Since(task.startedAt, now), Since(task.cancelRequestedAt, now);
      if data.Some? {
        if data.value.inProgress {
          if !task.seenRunning { task := task.(seenRunning := true); }
          return;
        }
        var isNewResult := task.seenRunning || task.status == Cancelling || elapsed > NEW_RESULT_MS;
        if isNewResult && data.value.status == "Completed" { task := task.(status := Success); return; }
        if isNewResult && data.value.status == "Cancelled" { task := task.(status := Cancelled); return; }
        if isNewResult && (data.value.status == "Failed" || data.value.status == "Disabled") {
          task := task.(status := Error);
          return;
        }
      }
      if task.status == Cancelling {
        var waited := if task.cancelRequestedAt.Some? then cancelElapsed else elapsed;
        if waited > CANCEL_TIMEOUT_MS { task := task.(status := Error); }
      } else if !task.seenRunning && elapsed > SILENCE_TIMEOUT_MS {
        task := task.(status := Success);
      }
    }

    /** `markCancelling`, reached through a button that is disabled until the refresh has been seen running. */
    method MarkCancelling(now: int)
      requires task.status == Pending && task.seenRunning
      modifies this
      ensures task == old(task).(status := Cancelling, cancelRequestedAt := Some(now))
    {
      task := task.(status := Cancelling, cancelRequestedAt := Some(now));
    }
  }

  function AfterPoll(t: Task, data: Option<Report>, now: int): Task {
    if !Active(t) then t
    else if data.Some? && data.value.inProgress then t.(seenRunning := true)
    else
      var accepted := t.seenRunning || t.status == Cancelling || Since(t.startedAt, now) > NEW_RESULT_MS;
      if data.Some? && accepted && Verdict(data.value.status).Some? then t.(status := Verdict(data.value.status).value)
      else if t.status == Cancelling then
        var waited := if t.cancelRequestedAt.Some? then Since(t.cancelRequestedAt, now) else Since(t.startedAt, now);
        if waited > CANCEL_TIMEOUT_MS then t.(status := Error) else t
      else if !t.seenRunning && Since(t.startedAt, now) > SILENCE_TIMEOUT_MS then t.(status := Success)
      else t
  }

  // ---------------------------------------------------------------- runs

  datatype Step = Poll(data: Option<Report>, now: int) | Cancel(now: int)

  predicate Enabled(t: Task, step: Step) {
    step.Cancel? ==> t.status == Pending && t.seenRunning
  }

  function Next(t: Task, step: Step): Task {
    match step
    case Poll(data, now) => AfterPoll(t, data, now)
    case Cancel(now) => t.(status := Cancelling, cancelRequestedAt := Some(now))
  }

  ghost predicate IsRun(tasks: seq<Task>, steps: seq<Step>, startedAt: Option<int>) {
    |tasks| == |steps| + 1 && tasks[0] == Task(Pending, false, startedAt, None) &&
    forall n :: 0 <= n < |steps| ==> Enabled(tasks[n], steps[n]) && tasks[n + 1] == Next(tasks[n], steps[n])
  }

  // What has happened so far, told from the steps alone.

  predicate ShowsProgress(step: Step) {
    step.Poll? && step.data.Some? && step.data.value.inProgress
  }

  ghost predicate SeenProgress(steps: seq<Step>, n: nat)
    requires n <= |steps|
  {
    exists k :: 0 <= k < n && ShowsProgress(steps[k])
  }

  ghost predicate CancelledAt(steps: seq<Step>, n: nat, time: int)
    requires n <= |steps|
  {
    exists k :: 0 <= k < n && steps[k] == Cancel(time)
  }

  /** While a task is open, its fields say exactly what has happened. */
  lemma {:induction false} FieldsAreHistory(tasks: seq<Task>, steps: seq<Step>, startedAt: Option<int>, n: nat)
    requires IsRun(tasks, steps, startedAt) && n < |tasks|
    requires tasks[n].status == Pending || tasks[n].status == Cancelling
    ensures tasks[n].startedAt == startedAt && (tasks[n].seenRunning <==> SeenProgress(steps, n))
    ensures tasks[n].status == Cancelling <==> exists time :: CancelledAt(steps, n, time)
    ensures forall time :: CancelledAt(steps, n, time) <==> tasks[n].cancelRequestedAt == Some(time)
    ensures tasks[n].status == Cancelling ==> tasks[n].seenRunning
    decreases n
  {
    hide AfterPoll;
    if n > 0 {
      var before, step := tasks[n - 1], steps[n - 1];
      assert tasks[n - 1 + 1] == Next(before, step);
      OpenBefore(before, step);
      FieldsAreHistory(tasks, steps, startedAt, n - 1);
      OpenStep(before, step);
      assert SeenProgress(steps, n) <==> SeenProgress(steps, n - 1) || ShowsProgress(step);
      forall time ensures CancelledAt(steps, n, time) <==> CancelledAt(steps, n - 1, time) || step == Cancel(time) {
        if step == Cancel(time) { assert steps[n - 1] == Cancel(time); }
      }
    }
  }

  lemma OpenBefore(t: Task, step: Step)
    requires Enabled(t, step) && Active(Next(t, step))
    ensures Active(t)
  {}

  lemma OpenStep(t: Task, step: Step)
    requires Enabled(t, step) && Active(t) && Active(Next(t, step))
    ensures step.Poll? ==> Next(t, step) == t.(seenRunning := t.seenRunning || ShowsProgress(step))
  {}

  /** A closed task stays closed, with the same verdict. */
  lemma {:induction false} ClosedForGood(tasks: seq<Task>, steps: seq<Step>, startedAt: Option<int>, m: nat, n: nat)
    requires IsRun(tasks, steps, startedAt) && m <= n < |tasks|
    requires tasks[m].status == Success || tasks[m].status == Error || tasks[m].status == Cancelled
    ensures tasks[n] == tasks[m]
    decreases n
  {
    if m < n {
      ClosedForGood(tasks, steps, startedAt, m, n - 1);
      assert tasks[n - 1 + 1] == Next(tasks[n - 1], steps[n - 1]);
    }
  }

  /** What one poll does to any open task, whether or not a run reaches it: each verdict and exactly when it falls. */
  lemma PollOutcome(t: Task, data: Option<Report>, now: int)
    requires t.status == Pending || t.status == Cancelling
    ensures var after := AfterPoll(t, data, now);
            var progress := data.Some? && data.value.inProgress;
            var late := t.startedAt.Some? && now - t.startedAt.value > 20_000;
            var trusted := t.seenRunning || t.status == Cancelling || late;
            var said := if data.Some? && !progress && trusted then data.value.status else "";
            var from := if t.cancelRequestedAt.Some? then t.cancelRequestedAt else t.startedAt;
            var over := said !in {"Completed", "Cancelled", "Failed", "Disabled"} && !progress &&
              if t.status == Cancelling then from.Some? && now - from.value > 300_000
              else !t.seenRunning && t.startedAt.Some? && now - t.startedAt.value > 600_000;
            after == t.(status := after.status, seenRunning := t.seenRunning || progress)
            && (after.status == Success <==> said == "Completed" || (over && t.status == Pending))
            && (after.status == Cancelled <==> said == "Cancelled")
            && (after.status == Error <==> said in {"Failed", "Disabled"} || (over && t.status == Cancelling))
            && (after.status == Pending || after.status == Cancelling ==> after.status == t.status)
  {}

  /** The report answers this refresh: progress was seen before, or it comes late enough not to be an old one. */
  ghost predicate Trusted(steps: seq<Step>, n: nat, startedAt: Option<int>)
    requires n < |steps|
  {
    SeenProgress(steps, n) || (startedAt.Some? && steps[n].now - startedAt.value > 20_000)
  }

  /** A report about this refresh that says the given status. */
  ghost predicate Says(steps: seq<Step>, n: nat, startedAt: Option<int>, status: string)
    requires n < |steps|
  {
    steps[n].Poll? && steps[n].data == Some(Report(status, false)) && Trusted(steps, n, startedAt)
  }

  /** A terminal report about this refresh. */
  ghost predicate Conclusive(steps: seq<Step>, n: nat, startedAt: Option<int>)
    requires n < |steps|
  {
    exists status :: status in {"Completed", "Cancelled", "Failed", "Disabled"} && Says(steps, n, startedAt, status)
  }

  ghost predicate CancelRequested(steps: seq<Step>, n: nat)
    requires n <= |steps|
  {
    exists time :: CancelledAt(steps, n, time)
  }

  /** Five minutes without confirmation after a cancel request. */
  ghost predicate CancelTimedOut(steps: seq<Step>, n: nat)
    requires n < |steps|
  {
    exists time :: CancelledAt(steps, n, time) && steps[n].now - time > 300_000
  }

  /** Ten minutes without any sign of progress. */
  ghost predicate SilenceTimedOut(steps: seq<Step>, n: nat, startedAt: Option<int>)
    requires n < |steps|
  {
    !CancelRequested(steps, n) && !SeenProgress(steps, n)
    && startedAt.Some? && steps[n].now - startedAt.value > 600_000
  }

  /**
   * A poll closes an open task exactly when it does not report progress and either is a terminal report
   * about this refresh, or the task has timed out: five minutes after a cancel request, ten minutes
   * without any sign of progress otherwise.
   */
  lemma ClosesIff(tasks: seq<Task>, steps: seq<Step>, startedAt: Option<int>, n: nat)
    requires IsRun(tasks, steps, startedAt) && n < |steps| && steps[n].Poll?
    requires tasks[n].status == Pending || tasks[n].status == Cancelling
    ensures tasks[n + 1].status != tasks[n].status <==>
            !ShowsProgress(steps[n]) &&
            (Conclusive(steps, n, startedAt) || CancelTimedOut(steps, n) || SilenceTimedOut(steps, n, startedAt))
  {
    ClosesAs(tasks, steps, startedAt, n);
    ConclusiveCases(steps, n, startedAt);
    PollOutcome(tasks[n], steps[n].data, steps[n].now);
    assert tasks[n + 1] == Next(tasks[n], steps[n]);
    hide Says, SeenProgress, CancelledAt, AfterPoll;
  }

  lemma ConclusiveCases(steps: seq<Step>, n: nat, startedAt: Option<int>)
    requires n < |steps|
    ensures Conclusive(steps, n, startedAt) <==>
            Says(steps, n, startedAt, "Completed") || Says(steps, n, startedAt, "Cancelled")
            || Says(steps, n, startedAt, "Failed") || Says(steps, n, startedAt, "Disabled")
    ensures ShowsProgress(steps[n]) ==> !Conclusive(steps, n, startedAt)
  {}

  /** Which verdict a poll gives, told from the steps alone. */
  lemma ClosesAs(tasks: seq<Task>, steps: seq<Step>, startedAt: Option<int>, n: nat)
    requires IsRun(tasks, steps, startedAt) && n < |steps| && steps[n].Poll?
    requires tasks[n].status == Pending || tasks[n].status == Cancelling
    ensures var quiet := !ShowsProgress(steps[n]) && !Conclusive(steps, n, startedAt);
            (tasks[n + 1].status == Success <==>
             Says(steps, n, startedAt, "Completed") || (quiet && SilenceTimedOut(steps, n, startedAt))) &&
            (tasks[n + 1].status == Cancelled <==> Says(steps, n, startedAt, "Cancelled")) &&
            (tasks[n + 1].status == Error <==>
             Says(steps, n, startedAt, "Failed") || Says(steps, n, startedAt, "Disabled")
             || (quiet && CancelTimedOut(steps, n)))
  {
    var t, step := tasks[n], steps[n];
    FieldsAreHistory(tasks, steps, startedAt, n);
    ConclusiveCases(steps, n, startedAt);
    PollOutcome(t, step.data, step.now);
    assert tasks[n + 1] == Next(t, step);
    hide SeenProgress, CancelledAt, AfterPoll;
    if step.data.Some? { assert step.data.value == Report(step.data.value.status, step.data.value.inProgress); }
    if t.status == Cancelling {
      var time :| CancelledAt(steps, n, time);
      assert t.cancelRequestedAt == Some(time);
    }
  }

  /** Once seen running and not cancelled, a task has no timeout: silence never closes it. */
  lemma {:induction false} SilenceNeverCloses(tasks: seq<Task>,
      steps: seq<Step>, startedAt: Option<int>, m: nat, n: nat)
    requires IsRun(tasks, steps, startedAt) && m <= n < |tasks|
    requires tasks[m].status == Pending && tasks[m].seenRunning
    requires forall k :: m <= k < n ==>
               steps[k].Poll? && (steps[k].data.None? || steps[k].data.value.inProgress
                 || steps[k].data.value.status !in {"Completed", "Cancelled", "Failed", "Disabled"})
    ensures tasks[n] == tasks[m]
    decreases n
  {
    if m < n {
      SilenceNeverCloses(tasks, steps, startedAt, m, n - 1);
      assert tasks[n - 1 + 1] == Next(tasks[n - 1], steps[n - 1]);
    }
  }

  // ---------------------------------------------------------------- runs exist

  function TaskAfter(startedAt: Option<int>, steps: seq<Step>): Task {
    if steps == [] then Task(Pending, false, startedAt, None)
    else Next(TaskAfter(startedAt, steps[..|steps| - 1]), steps[|steps| - 1])
  }

  /** A task is cancelled only while its button is enabled. */
  predicate Possible(startedAt: Option<int>, steps: seq<Step>) {
    steps == [] ||
    (Possible(startedAt, steps[..|steps| - 1])
     && Enabled(TaskAfter(startedAt, steps[..|steps| - 1]), steps[|steps| - 1]))
  }

  /** Every possible sequence of steps has its run. */
  lemma {:induction false} RunExists(startedAt: Option<int>, steps: seq<Step>) returns (tasks: seq<Task>)
    requires Possible(startedAt, steps)
    ensures IsRun(tasks, steps, startedAt) && tasks[|steps|] == TaskAfter(startedAt, steps)
    decreases |steps|
  {
    hide Next, Enabled;
    if steps == [] {
      tasks := [Task(Pending, false, startedAt, None)];
    } else {
      tasks := RunExists(startedAt, steps[..|steps| - 1]);
      tasks := tasks + [Next(tasks[|steps| - 1], steps[|steps| - 1])];
    }
  }

  lemma OneStepOn(startedAt: Option<int>, before: seq<Step>, step: Step)
    ensures TaskAfter(startedAt, before + [step]) == Next(TaskAfter(startedAt, before), step)
    ensures Possible(startedAt, before + [step])
            <==> Possible(startedAt, before) && Enabled(TaskAfter(startedAt, before), step)
  {
    assert (before + [step])[..|before|] == before;
  }

  /** Seen running, cancelled after a minute, and given up at the first poll more than five minutes later. */
  lemma CancelThatIsNeverConfirmed()
    ensures var steps := [Poll(Some(Report("Unknown", true)), 5_000), Cancel(60_000), Poll(None, 360_000)];
            Possible(Some(0), steps) && TaskAfter(Some(0), steps) == Task(Cancelling, true, Some(0), Some(60_000))
            && Possible(Some(0), steps + [Poll(None, 360_001)])
            && TaskAfter(Some(0), steps + [Poll(None, 360_001)]).status == Error
  {
    var seen, cancel, poll := Poll(Some(Report("Unknown", true)), 5_000), Cancel(60_000), Poll(None, 360_000);
    OneStepOn(Some(0), [], seen);
    OneStepOn(Some(0), [seen], cancel);
    OneStepOn(Some(0), [seen, cancel], poll);
    OneStepOn(Some(0), [seen, cancel, poll], Poll(None, 360_001));
    assert [] + [seen] == [seen] && [seen] + [cancel] == [seen, cancel];
    assert [seen, cancel] + [poll] == [seen, cancel, poll];
    hide TaskAfter, Possible;
    assert TaskAfter(Some(0), []) == Task(Pending, false, Some(0), None) && Possible(Some(0), []) by { NoSteps(); }
  }

  lemma NoSteps()
    ensures TaskAfter(Some(0), []) == Task(Pending, false, Some(0), None) && Possible(Some(0), [])
  {}
}
