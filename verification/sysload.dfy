/** The system-load monitor's per-task snapshot table: a fixed array of 32 entries, of
    which the first `topIndex` are in use, each holding a task number and the run-time
    counter that task had at the previous dump. */
module SysLoad {

  import opened Uint

  const TaskMaxCount: nat := 32

  datatype TaskData = TaskData(runTimeCounter: u32, taskNumber: u32)

  /** The part of the kernel's report on one task that the snapshot update reads. */
  datatype TaskStatus = TaskStatus(taskNumber: u32, runTimeCounter: u32)

  datatype State = State(
    triggerDump: u8,
    snapshot: seq<TaskData>,
    topIndex: nat,
    previousTotalRunTime: u32)

  /** The table's shape: 32 entries, at most all of them in use. */
  predicate WellFormed(snapshot: seq<TaskData>, top: nat) {
    |snapshot| == TaskMaxCount && top <= TaskMaxCount
  }

  /** Some entry in use holds task number `x`. */
  predicate Listed(snapshot: seq<TaskData>, top: nat, x: u32)
    requires top <= |snapshot|
  {
    exists j | 0 <= j < top :: snapshot[j].taskNumber == x
  }

  /** No two entries in use hold the same task number. */
  predicate Distinct(snapshot: seq<TaskData>, top: nat)
    requires top <= |snapshot|
  {
    forall i, j | 0 <= i < j < top :: snapshot[i].taskNumber != snapshot[j].taskNumber
  }

  /** Every entry not yet in use is still zero, as the zero-initialised array left it. */
  predicate UnusedZero(snapshot: seq<TaskData>, top: nat)
    requires top <= |snapshot|
  {
    forall j | top <= j < |snapshot| :: snapshot[j] == TaskData(0, 0)
  }

  predicate Valid(s: State) {
    && WellFormed(s.snapshot, s.topIndex)
    && Distinct(s.snapshot, s.topIndex)
    && UnusedZero(s.snapshot, s.topIndex)
  }

  /** The state at power-on. */
  function Initial(): (s: State)
    ensures Valid(s) && s.topIndex == 0 && s.triggerDump == 0
  {
    State(0, seq(TaskMaxCount, j => TaskData(0, 0)), 0, 0)
  }

  /** getPreviousTaskData: the index of the entry for task `x`, appending one when no entry
      in use has it; appending needs a free entry (the ASSERT on taskTopIndex). */
  method GetPreviousTaskData(snapshot: seq<TaskData>, top: nat, x: u32)
    returns (snapshot': seq<TaskData>, top': nat, index: nat)
    requires WellFormed(snapshot, top)
    requires Listed(snapshot, top, x) || top < TaskMaxCount
    ensures WellFormed(snapshot', top')
    ensures index < top' && snapshot'[index].taskNumber == x
    ensures Listed(snapshot, top, x) ==>
              && snapshot' == snapshot && top' == top
              && forall j | 0 <= j < index :: snapshot[j].taskNumber != x
    ensures !Listed(snapshot, top, x) ==>
              && top' == top + 1 && index == top
              && snapshot'[index].runTimeCounter == snapshot[index].runTimeCounter
              && forall j | 0 <= j < |snapshot| && j != index :: snapshot'[j] == snapshot[j]
    ensures Distinct(snapshot, top) ==> Distinct(snapshot', top')
    ensures UnusedZero(snapshot, top) ==> UnusedZero(snapshot', top')
    ensures UnusedZero(snapshot, top) && !Listed(snapshot, top, x) ==> snapshot'[index].runTimeCounter == 0
  {
    var i := 0;
    while i < top
      invariant 0 <= i <= top
      invariant forall j | 0 <= j < i :: snapshot[j].taskNumber != x
    {
      if snapshot[i].taskNumber == x {
        return snapshot, top, i;
      }
      i := i + 1;
    }
    snapshot' := snapshot[top := snapshot[top].(taskNumber := x)];
    top' := top + 1;
    index := top;
  }

  /** Some entry in use holds task `x` with run-time counter `runTime`. */
  predicate Stored(snapshot: seq<TaskData>, top: nat, x: u32, runTime: u32)
    requires top <= |snapshot|
  {
    exists j | 0 <= j < top :: snapshot[j].taskNumber == x && snapshot[j].runTimeCounter == runTime
  }

  /** Task number `x` appears among the first `n` entries of the kernel's report. */
  predicate ReportedBefore(tasks: seq<TaskStatus>, n: nat, x: u32)
    requires n <= |tasks|
  {
    exists k | 0 <= k < n :: tasks[k].taskNumber == x
  }

  /** The kernel reports each task once. */
  predicate OncePerTask(tasks: seq<TaskStatus>) {
    forall i, j | 0 <= i < j < |tasks| :: tasks[i].taskNumber != tasks[j].taskNumber
  }

  /** The body of the handler's loop for one reported task: look up (or append) its entry
      and copy its current run-time counter forward into it. */
  method CopyForward(snapshot: seq<TaskData>, top: nat, task: TaskStatus)
    returns (snapshot': seq<TaskData>, top': nat)
    requires WellFormed(snapshot, top) && Distinct(snapshot, top) && UnusedZero(snapshot, top)
    requires Listed(snapshot, top, task.taskNumber) || top < TaskMaxCount
    ensures WellFormed(snapshot', top') && Distinct(snapshot', top') && UnusedZero(snapshot', top')
    ensures top <= top' <= top + 1
    ensures Listed(snapshot, top, task.taskNumber) ==> top' == top
    ensures Stored(snapshot', top', task.taskNumber, task.runTimeCounter)
    ensures forall j | 0 <= j < top && snapshot[j].taskNumber != task.taskNumber :: snapshot'[j] == snapshot[j]
    ensures forall j | 0 <= j < top :: snapshot'[j].taskNumber == snapshot[j].taskNumber
    ensures forall j | top <= j < top' :: snapshot'[j].taskNumber == task.taskNumber
  {
    var found, index;
    found, top', index := GetPreviousTaskData(snapshot, top, task.taskNumber);
    snapshot' := found[index := found[index].(runTimeCounter := task.runTimeCounter)];
    assert snapshot'[index].taskNumber == task.taskNumber;
  }

  /** An entry stored for another task survives a copy-forward step. */
  lemma StoredKept(snapshot: seq<TaskData>, top: nat, snapshot': seq<TaskData>, top': nat,
                   x: u32, n: u32, runTime: u32)
    requires top <= top' <= |snapshot'| && top <= |snapshot|
    requires forall j | 0 <= j < top && snapshot[j].taskNumber != x :: snapshot'[j] == snapshot[j]
    requires Stored(snapshot, top, n, runTime) && n != x
    ensures Stored(snapshot', top', n, runTime)
  {
    var j :| 0 <= j < top && snapshot[j].taskNumber == n && snapshot[j].runTimeCounter == runTime;
    assert snapshot'[j] == snapshot[j];
  }

  datatype HandlerOutcome = Completed(state: State) | AssertionFailed

  /** The snapshot update of timerHandler, given the kernel's report `tasks` (at most the 32
      entries of its buffer) and its total run time. A failing ASSERT halts the handler. */
  method TimerHandler(s: State, tasks: seq<TaskStatus>, totalRunTime: u32) returns (r: HandlerOutcome)
    requires Valid(s)
    requires |tasks| <= TaskMaxCount
    requires OncePerTask(tasks)
    ensures s.triggerDump == 0 ==> r == Completed(s)
    ensures r.Completed? ==> Valid(r.state)
    ensures s.triggerDump != 0 && r.Completed? ==>
              && r.state.triggerDump == 0
              && r.state.previousTotalRunTime == totalRunTime
              && s.topIndex <= r.state.topIndex
              && (forall k | 0 <= k < |tasks| ::
                    Stored(r.state.snapshot, r.state.topIndex, tasks[k].taskNumber, tasks[k].runTimeCounter))
              && (forall j | 0 <= j < s.topIndex && !ReportedBefore(tasks, |tasks|, s.snapshot[j].taskNumber) ::
                    r.state.snapshot[j] == s.snapshot[j])
              && (forall j | 0 <= j < s.topIndex :: r.state.snapshot[j].taskNumber == s.snapshot[j].taskNumber)
              && (forall j | s.topIndex <= j < r.state.topIndex ::
                    ReportedBefore(tasks, |tasks|, r.state.snapshot[j].taskNumber))
    ensures |tasks| < TaskMaxCount && s.topIndex + |tasks| <= TaskMaxCount ==> r.Completed?
    ensures r.AssertionFailed? ==> s.triggerDump != 0
  {
    if s.triggerDump == 0 {
      return Completed(s);
    }
    if |tasks| >= TaskMaxCount {
      return AssertionFailed;
    }
    var snapshot: seq<TaskData>, top: nat := s.snapshot, s.topIndex;
    var i := 0;
    while i < |tasks|
      invariant 0 <= i <= |tasks|
      invariant WellFormed(snapshot, top) && Distinct(snapshot, top) && UnusedZero(snapshot, top)
      invariant s.topIndex <= top <= s.topIndex + i
      invariant forall k | 0 <= k < i ::
                  Stored(snapshot, top, tasks[k].taskNumber, tasks[k].runTimeCounter)
      invariant forall j | 0 <= j < s.topIndex && !ReportedBefore(tasks, i, s.snapshot[j].taskNumber) ::
                  snapshot[j] == s.snapshot[j]
      invariant forall j | 0 <= j < s.topIndex :: snapshot[j].taskNumber == s.snapshot[j].taskNumber
      invariant forall j | s.topIndex <= j < top :: ReportedBefore(tasks, i, snapshot[j].taskNumber)
    {
      var task := tasks[i];
      if !Listed(snapshot, top, task.taskNumber) && top >= TaskMaxCount {
        return AssertionFailed;
      }
      var snapshot', top' := CopyForward(snapshot, top, task);
      forall k | 0 <= k < i
        ensures Stored(snapshot', top', tasks[k].taskNumber, tasks[k].runTimeCounter)
      {
        StoredKept(snapshot, top, snapshot', top', task.taskNumber, tasks[k].taskNumber, tasks[k].runTimeCounter);
      }
      forall j | 0 <= j < s.topIndex && !ReportedBefore(tasks, i + 1, s.snapshot[j].taskNumber)
        ensures snapshot'[j] == s.snapshot[j]
      {
        assert !ReportedBefore(tasks, i, s.snapshot[j].taskNumber);
        assert tasks[i].taskNumber != s.snapshot[j].taskNumber;
      }
      snapshot, top := snapshot', top';
      i := i + 1;
    }
    return Completed(State(0, snapshot, top, totalRunTime));
  }
}
