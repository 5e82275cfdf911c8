/** The task lifecycle rules over the task table: the single-task terminal
    setters (cancel, error, success, retry), which overwrite a task's
    status and output whatever it was, and the bulk conditional updates
    (cancel a session, cancel a list of tasks, finalize creation), which
    move only the tasks their filter selects. */
module TaskLifecycle {
  import opened Failures

  datatype TaskStatus =
    | Creating | Submitted | Dispatched | Cancelling | Cancelled
    | Completed | Error | Retried | Timeout

  /** Dates and durations are opaque; only their equality matters here. */
  type Date = int
  type Duration = int

  datatype Output = Output(error: string, success: bool)

  datatype TaskData = TaskData(
    taskId: string,
    sessionId: string,
    status: TaskStatus,
    output: Output,
    submittedDate: Date,
    endDate: Date,
    creationToEndDuration: Duration,
    processingToEndDuration: Duration)

  /** One entry of an update list: set one field to a value. */
  datatype TaskField =
    | SetStatus(status: TaskStatus)
    | SetOutput(output: Output)
    | SetSubmittedDate(submittedDate: Date)
    | SetEndDate(endDate: Date)
    | SetCreationToEndDuration(creationToEnd: Duration)
    | SetProcessingToEndDuration(processingToEnd: Duration)

  function Apply(t: TaskData, u: TaskField): TaskData
  {
    match u
    case SetStatus(s) => t.(status := s)
    case SetOutput(o) => t.(output := o)
    case SetSubmittedDate(d) => t.(submittedDate := d)
    case SetEndDate(d) => t.(endDate := d)
    case SetCreationToEndDuration(d) => t.(creationToEndDuration := d)
    case SetProcessingToEndDuration(d) => t.(processingToEndDuration := d)
  }

  /** Applies an update list in order; the identifiers are never updated. */
  function ApplyAll(t: TaskData, us: seq<TaskField>): (r: TaskData)
    ensures r.taskId == t.taskId && r.sessionId == t.sessionId
    decreases |us|
  {
    if us == [] then t else ApplyAll(Apply(t, us[0]), us[1..])
  }

  // ---------------------------------------------------------------------
  // The status sets and filters.

  /** The statuses the session-wide cancel leaves alone. */
  predicate IsFinalStatus(s: TaskStatus)
  {
    s in {Completed, Cancelled, Error, Retried, Timeout}
  }

  /** Filter of CancelSession: the session's tasks not in a final status. */
  predicate CancellableInSession(t: TaskData, sessionId: string)
  {
    t.sessionId == sessionId && !IsFinalStatus(t.status)
  }

  /** Filter of CancelTasks: the listed tasks, except those cancelled,
      being cancelled, errored, completed or retried. */
  predicate CancellableById(t: TaskData, taskIds: seq<string>)
  {
    t.taskId in taskIds && t.status !in {Cancelled, Cancelling, Error, Completed, Retried}
  }

  /** Filter of FinalizeTaskCreation: the listed tasks still being created. */
  predicate Finalizable(t: TaskData, taskIds: seq<string>)
  {
    t.taskId in taskIds && t.status == Creating
  }

  /** The two exclusion sets differ: a timed-out task is final for the
      session-wide cancel but is still cancelled by id, and a task being
      cancelled is picked by the session-wide cancel but not by id. */
  lemma ExclusionSetsDiffer(t: TaskData, sessionId: string)
    requires t.sessionId == sessionId
    ensures t.status == Timeout ==> !CancellableInSession(t, sessionId) && CancellableById(t, [t.taskId])
    ensures t.status == Cancelling ==> CancellableInSession(t, sessionId) && !CancellableById(t, [t.taskId])
    ensures t.status !in {Timeout, Cancelling} ==>
              (CancellableInSession(t, sessionId) <==> CancellableById(t, [t.taskId]))
  {
  }

  // ---------------------------------------------------------------------
  // The update lists of the single-task setters.

  /** The fields every terminal setter writes: output, status, and the end
      date and durations taken from the caller's copy of the task. */
  function TerminalUpdate(status: TaskStatus, output: Output, taskData: TaskData): seq<TaskField>
  {
    [SetOutput(output), SetStatus(status), SetEndDate(taskData.endDate),
     SetCreationToEndDuration(taskData.creationToEndDuration),
     SetProcessingToEndDuration(taskData.processingToEndDuration)]
  }

  /** A terminal update sets exactly the five fields it names and keeps
      the identifiers and the submission date. */
  lemma TerminalUpdateFields(t: TaskData, status: TaskStatus, output: Output, taskData: TaskData)
    ensures ApplyAll(t, TerminalUpdate(status, output, taskData))
            == t.(status := status, output := output, endDate := taskData.endDate,
                  creationToEndDuration := taskData.creationToEndDuration,
                  processingToEndDuration := taskData.processingToEndDuration)
  {
    var us := TerminalUpdate(status, output, taskData);
    var t1 := Apply(t, us[0]);
    var t2 := Apply(t1, us[1]);
    var t3 := Apply(t2, us[2]);
    var t4 := Apply(t3, us[3]);
    var t5 := Apply(t4, us[4]);
    assert us[1..][1..][1..][1..][1..] == [];
    calc {
      ApplyAll(t, us);
      ApplyAll(t1, us[1..]);
      ApplyAll(t2, us[1..][1..]);
      ApplyAll(t3, us[1..][1..][1..]);
      ApplyAll(t4, us[1..][1..][1..][1..]);
      ApplyAll(t5, us[1..][1..][1..][1..][1..]);
      t5;
    }
  }

  /** The update of the two cancel operations sets the status and the end
      date and nothing else. */
  lemma CancellingUpdate(t: TaskData, now: Date)
    ensures ApplyAll(t, [SetStatus(Cancelling), SetEndDate(now)]) == t.(status := Cancelling, endDate := now)
  {
    var us := [SetStatus(Cancelling), SetEndDate(now)];
    assert us[1..][1..] == [];
    assert ApplyAll(t, us) == ApplyAll(t.(status := Cancelling), us[1..]);
  }

  /** The update of FinalizeTaskCreation sets the status and the submission
      date and nothing else. */
  lemma SubmittingUpdate(t: TaskData, now: Date)
    ensures ApplyAll(t, [SetStatus(Submitted), SetSubmittedDate(now)]) == t.(status := Submitted, submittedDate := now)
  {
    var us := [SetStatus(Submitted), SetSubmittedDate(now)];
    assert us[1..][1..] == [];
    assert ApplyAll(t, us) == ApplyAll(t.(status := Submitted), us[1..]);
  }

  /** Applying the same terminal update twice is applying it once. */
  lemma TerminalUpdateIdempotent(t: TaskData, status: TaskStatus, output: Output, taskData: TaskData)
    ensures var us := TerminalUpdate(status, output, taskData);
            ApplyAll(ApplyAll(t, us), us) == ApplyAll(t, us)
  {
    var us := TerminalUpdate(status, output, taskData);
    TerminalUpdateFields(t, status, output, taskData);
    TerminalUpdateFields(ApplyAll(t, us), status, output, taskData);
  }

  /** After a terminal update the task holds the target status, so a
      repeated error (or retry) call finds that status already stored and
      reports false, and rewrites nothing new. */
  lemma RepeatedTerminalUpdate(t: TaskData, status: TaskStatus, output: Output, taskData: TaskData)
    ensures var t1 := ApplyAll(t, TerminalUpdate(status, output, taskData));
            && t1.status == status && t1.output == output
            && ApplyAll(t1, TerminalUpdate(status, output, taskData)) == t1
  {
    TerminalUpdateIdempotent(t, status, output, taskData);
    TerminalUpdateFields(t, status, output, taskData);
  }

  // ---------------------------------------------------------------------
  // The table on values.

  /** Every task is stored under its own id. */
  ghost predicate WellKeyed(tasks: map<string, TaskData>)
  {
    forall id :: id in tasks ==> tasks[id].taskId == id
  }

  /** The ids a bulk update selects. */
  function Matching(tasks: map<string, TaskData>, filter: TaskData -> bool): set<string>
  {
    set id | id in tasks && filter(tasks[id])
  }

  /** The ids in a sequence, as a set, has at most as many elements as the
      sequence. */
  lemma {:induction false} SeqSetCardinality(xs: seq<string>)
    ensures |set x | x in xs| <= |xs|
  {
    if xs != [] {
      SeqSetCardinality(xs[1..]);
      assert (set x | x in xs) == (set x | x in xs[1..]) + {xs[0]};
    }
  }

  /** A bulk update whose filter only accepts listed ids matches at most as
      many tasks as the list holds. */
  lemma MatchingBoundedByList(tasks: map<string, TaskData>, filter: TaskData -> bool, taskIds: seq<string>)
    requires WellKeyed(tasks)
    requires forall t :: filter(t) ==> t.taskId in taskIds
    ensures |Matching(tasks, filter)| <= |taskIds|
  {
    var listed := set x | x in taskIds;
    assert Matching(tasks, filter) <= listed;
    SeqSetCardinality(taskIds);
    SubsetCardinality(Matching(tasks, filter), listed);
  }

  /** Cancelling four listed tasks stored as Completed, Error, Cancelling
      and Dispatched selects only the dispatched one. */
  lemma CancelByIdScenario(t: TaskData)
    ensures var tasks := map["a" := t.(taskId := "a", status := Completed),
                             "b" := t.(taskId := "b", status := Error),
                             "c" := t.(taskId := "c", status := Cancelling),
                             "d" := t.(taskId := "d", status := Dispatched)];
            Matching(tasks, u => CancellableById(u, ["a", "b", "c", "d"])) == {"d"}
  {
  }

  lemma {:induction false} SubsetCardinality(a: set<string>, b: set<string>)
    requires a <= b
    ensures |a| <= |b|
    decreases |a|
  {
    if a != {} {
      var x :| x in a;
      SubsetCardinality(a - {x}, b - {x});
    }
  }

  // ---------------------------------------------------------------------
  // The task table.

  class TaskTable {
    var tasks: map<string, TaskData>

    ghost predicate Valid()
      reads this
    {
      WellKeyed(tasks)
    }

    constructor (tasks: map<string, TaskData>)
      requires WellKeyed(tasks)
      ensures Valid() && this.tasks == tasks
    {
      this.tasks := tasks;
    }

    /** Reads one task; an unknown id is reported as not found. */
    method ReadTask(taskId: string) returns (r: Outcome<TaskData>)
      requires Valid()
      ensures taskId in tasks ==> r == Ok(tasks[taskId]) && r.value.taskId == taskId
      ensures taskId !in tasks ==> r == Fail(TaskNotFound(taskId))
    {
      if taskId in tasks {
        r := Ok(tasks[taskId]);
      } else {
        r := Fail(TaskNotFound(taskId));
      }
    }

    /** Applies the update list to one task and returns the task as it was
        before the update; an unknown id is reported as not found. */
    method UpdateOneTask(taskId: string, us: seq<TaskField>) returns (r: Outcome<TaskData>)
      requires Valid()
      modifies this
      ensures Valid()
      ensures taskId in old(tasks) ==>
                r == Ok(old(tasks)[taskId]) && tasks == old(tasks)[taskId := ApplyAll(old(tasks)[taskId], us)]
      ensures taskId !in old(tasks) ==> r == Fail(TaskNotFound(taskId)) && tasks == old(tasks)
    {
      if taskId in tasks {
        var before := tasks[taskId];
        tasks := tasks[taskId := ApplyAll(before, us)];
        r := Ok(before);
      } else {
        r := Fail(TaskNotFound(taskId));
      }
    }

    /** Applies the update list to every task the filter selects and
        returns how many it selected. */
    method UpdateManyTasks(filter: TaskData -> bool, us: seq<TaskField>) returns (count: nat)
      requires Valid()
      modifies this
      ensures Valid()
      ensures tasks.Keys == old(tasks).Keys
      ensures forall id :: id in tasks ==>
                tasks[id] == if filter(old(tasks)[id]) then ApplyAll(old(tasks)[id], us) else old(tasks)[id]
      ensures count == |Matching(old(tasks), filter)|
    {
      count := |Matching(tasks, filter)|;
      tasks := map id | id in tasks :: if filter(tasks[id]) then ApplyAll(tasks[id], us) else tasks[id];
    }

    /** Marks the task cancelled with an empty error, whatever its status. */
    method SetTaskCanceled(taskData: TaskData) returns (r: Outcome<()>)
      requires Valid()
      modifies this
      ensures Valid()
      ensures var id := taskData.taskId;
              if id in old(tasks) then
                r == Ok(()) &&
                tasks == old(tasks)[id := old(tasks)[id].(status := Cancelled, output := Output("", false),
                                                          endDate := taskData.endDate,
                                                          creationToEndDuration := taskData.creationToEndDuration,
                                                          processingToEndDuration := taskData.processingToEndDuration)]
              else r == Fail(TaskNotFound(id)) && tasks == old(tasks)
    {
      var id := taskData.taskId;
      if id in tasks {
        TerminalUpdateFields(tasks[id], Cancelled, Output("", false), taskData);
      }
      var before := UpdateOneTask(id, TerminalUpdate(Cancelled, Output("", false), taskData));
      r := if before.Ok? then Ok(()) else Fail(before.error);
    }

    /** Marks the task errored with the given detail. Reports whether the
        status stored before the call was something other than Error, so a
        repeated call reports false. */
    method SetTaskError(taskData: TaskData, errorDetail: string) returns (r: Outcome<bool>)
      requires Valid()
      modifies this
      ensures Valid()
      ensures var id := taskData.taskId;
              if id in old(tasks) then
                r == Ok(old(tasks)[id].status != Error) &&
                tasks == old(tasks)[id := old(tasks)[id].(status := Error, output := Output(errorDetail, false),
                                                          endDate := taskData.endDate,
                                                          creationToEndDuration := taskData.creationToEndDuration,
                                                          processingToEndDuration := taskData.processingToEndDuration)]
              else r == Fail(TaskNotFound(id)) && tasks == old(tasks)
    {
      var id := taskData.taskId;
      if id in tasks {
        TerminalUpdateFields(tasks[id], Error, Output(errorDetail, false), taskData);
      }
      var before := UpdateOneTask(id, TerminalUpdate(Error, Output(errorDetail, false), taskData));
      r := if before.Ok? then Ok(before.value.status != Error) else Fail(before.error);
    }

    /** Marks the task completed with a successful, empty-error output. */
    method SetTaskSuccess(taskData: TaskData) returns (r: Outcome<()>)
      requires Valid()
      modifies this
      ensures Valid()
      ensures var id := taskData.taskId;
              if id in old(tasks) then
                r == Ok(()) &&
                tasks == old(tasks)[id := old(tasks)[id].(status := Completed, output := Output("", true),
                                                          endDate := taskData.endDate,
                                                          creationToEndDuration := taskData.creationToEndDuration,
                                                          processingToEndDuration := taskData.processingToEndDuration)]
              else r == Fail(TaskNotFound(id)) && tasks == old(tasks)
    {
      var id := taskData.taskId;
      if id in tasks {
        TerminalUpdateFields(tasks[id], Completed, Output("", true), taskData);
      }
      var before := UpdateOneTask(id, TerminalUpdate(Completed, Output("", true), taskData));
      r := if before.Ok? then Ok(()) else Fail(before.error);
    }

    /** Marks the task retried with the given detail. Reports whether the
        status stored before the call was something other than Retried. */
    method SetTaskRetry(taskData: TaskData, errorDetail: string) returns (r: Outcome<bool>)
      requires Valid()
      modifies this
      ensures Valid()
      ensures var id := taskData.taskId;
              if id in old(tasks) then
                r == Ok(old(tasks)[id].status != Retried) &&
                tasks == old(tasks)[id := old(tasks)[id].(status := Retried, output := Output(errorDetail, false),
                                                          endDate := taskData.endDate,
                                                          creationToEndDuration := taskData.creationToEndDuration,
                                                          processingToEndDuration := taskData.processingToEndDuration)]
              else r == Fail(TaskNotFound(id)) && tasks == old(tasks)
    {
      var id := taskData.taskId;
      if id in tasks {
        TerminalUpdateFields(tasks[id], Retried, Output(errorDetail, false), taskData);
      }
      var before := UpdateOneTask(id, TerminalUpdate(Retried, Output(errorDetail, false), taskData));
      r := if before.Ok? then Ok(before.value.status != Retried) else Fail(before.error);
    }

    /** Moves every task of the session that is not in a final status to
        Cancelling, with end date `now`; every other task is unchanged. */
    method CancelSession(sessionId: string, now: Date)
      requires Valid()
      modifies this
      ensures Valid()
      ensures tasks.Keys == old(tasks).Keys
      ensures forall id :: id in tasks ==>
                tasks[id] == if CancellableInSession(old(tasks)[id], sessionId)
                             then old(tasks)[id].(status := Cancelling, endDate := now)
                             else old(tasks)[id]
    {
      forall id | id in tasks
        ensures ApplyAll(tasks[id], [SetStatus(Cancelling), SetEndDate(now)]) == tasks[id].(status := Cancelling, endDate := now)
      {
        CancellingUpdate(tasks[id], now);
      }
      var _ := UpdateManyTasks(t => CancellableInSession(t, sessionId), [SetStatus(Cancelling), SetEndDate(now)]);
    }

    /** Moves the listed tasks not cancelled, being cancelled, errored,
        completed or retried to Cancelling, with end date `now`, and returns
        how many it moved; no other task changes. */
    method CancelTasks(taskIds: seq<string>, now: Date) returns (count: nat)
      requires Valid()
      modifies this
      ensures Valid()
      ensures tasks.Keys == old(tasks).Keys
      ensures forall id :: id in tasks ==>
                tasks[id] == if CancellableById(old(tasks)[id], taskIds)
                             then old(tasks)[id].(status := Cancelling, endDate := now)
                             else old(tasks)[id]
      ensures count == |Matching(old(tasks), t => CancellableById(t, taskIds))| && count <= |taskIds|
    {
      MatchingBoundedByList(tasks, t => CancellableById(t, taskIds), taskIds);
      forall id | id in tasks
        ensures ApplyAll(tasks[id], [SetStatus(Cancelling), SetEndDate(now)]) == tasks[id].(status := Cancelling, endDate := now)
      {
        CancellingUpdate(tasks[id], now);
      }
      count := UpdateManyTasks(t => CancellableById(t, taskIds), [SetStatus(Cancelling), SetEndDate(now)]);
    }

    /** Moves the listed tasks still in Creating to Submitted, stamping the
        submission date, and returns how many it moved; listed tasks in any
        other status, and unlisted tasks, are unchanged. */
    method FinalizeTaskCreation(taskIds: seq<string>, now: Date) returns (count: nat)
      requires Valid()
      modifies this
      ensures Valid()
      ensures tasks.Keys == old(tasks).Keys
      ensures forall id :: id in tasks ==>
                tasks[id] == if Finalizable(old(tasks)[id], taskIds)
                             then old(tasks)[id].(status := Submitted, submittedDate := now)
                             else old(tasks)[id]
      ensures count == |Matching(old(tasks), t => Finalizable(t, taskIds))| && count <= |taskIds|
    {
      MatchingBoundedByList(tasks, t => Finalizable(t, taskIds), taskIds);
      forall id | id in tasks
        ensures ApplyAll(tasks[id], [SetStatus(Submitted), SetSubmittedDate(now)]) == tasks[id].(status := Submitted, submittedDate := now)
      {
        SubmittingUpdate(tasks[id], now);
      }
      count := UpdateManyTasks(t => Finalizable(t, taskIds), [SetStatus(Submitted), SetSubmittedDate(now)]);
    }
  }

  /** Two error calls for the same task: the first reports a transition,
      the second finds the task already errored and reports false. */
  method ErrorReportedOnce(table: TaskTable, taskData: TaskData, errorDetail: string)
    returns (first: Outcome<bool>, second: Outcome<bool>)
    requires table.Valid() && taskData.taskId in table.tasks && table.tasks[taskData.taskId].status != Error
    modifies table
    ensures first == Ok(true) && second == Ok(false)
    ensures taskData.taskId in table.tasks && table.tasks[taskData.taskId].status == Error
  {
    first := table.SetTaskError(taskData, errorDetail);
    second := table.SetTaskError(taskData, errorDetail);
  }
}
