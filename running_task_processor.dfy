/** The execution loop of a worker: it moves the failures recorded by the
    post-processing stage into its own queue's exception queue, takes the
    next task handler, executes it, hands it to post-processing, and records
    every failure instead of stopping. A release guard disposes the handler
    on every exit path unless the hand-off succeeded.

    Reading a handler, executing it and handing it off are the collaborators'
    business; each iteration's `Iteration` value says how each of them ends. */
module RunningTaskProcessing {
  import opened Failures
  import opened TaskQueue

  /** An acquired task in flight between pipeline stages. */
  datatype TaskHandler = TaskHandler(messageId: string, taskId: string, sessionId: string)

  /** How a collaborator call ends. */
  datatype Step = Completes | Throws(e: Exception)

  /** How reading the next handler from the running queue ends. */
  datatype ReadOutcome = Delivers(handler: TaskHandler) | ReadThrows(e: Exception)

  /** What happens around one iteration: the exceptions the post-processing
      stage records before the iteration starts, then the outcome of the
      read, of the execution and of the hand-off, and how disposing the
      handler ends when the release guard fires (it does not fire after a
      completed hand-off). */
  datatype Iteration = Iteration(downstream: seq<Exception>, read: ReadOutcome,
                                 execute: Step, handOff: Step, release: Step)

  // ---------------------------------------------------------------------
  // Specification of the loop on values.

  /** The observable state of the pipeline: both exception queues, the
      handlers handed to post-processing and the handlers released by the
      guard, each in order. */
  datatype Pipeline = Pipeline(running: seq<Exception>, post: seq<Exception>,
                               handedOff: seq<TaskHandler>, released: seq<TaskHandler>)

  /** The iteration delivers a handler that is executed and handed off. */
  predicate Succeeds(it: Iteration)
  {
    it.read.Delivers? && it.execute.Completes? && it.handOff.Completes?
  }

  /** The exception an iteration raises, if any. An exception thrown while
      the guard disposes the handler replaces the one being propagated. */
  function Raised(it: Iteration): (r: Option<Exception>)
    ensures r.None? <==> Succeeds(it)
    ensures it.read.ReadThrows? ==> r == Some(it.read.e)
    ensures it.read.Delivers? && !Succeeds(it) && it.release.Completes? ==>
              r == Some(if it.execute.Throws? then it.execute.e else it.handOff.e)
  {
    match it.read
    case ReadThrows(e) => Some(e)
    case Delivers(_) =>
      match (it.execute, it.handOff, it.release)
      case (Completes, Completes, _) => None
      case (_, _, Throws(d)) => Some(d)
      case (Throws(e), _, Completes) => Some(e)
      case (Completes, Throws(e), Completes) => Some(e)
  }

  function AsSeq<T>(o: Option<T>): seq<T>
  {
    if o.Some? then [o.value] else []
  }

  /** The loop body on values: the pending post-processing exceptions move,
      oldest first, behind the running queue's; a delivered handler is
      either handed off or released; a failure is recorded last. */
  function BodyEffect(p: Pipeline, it: Iteration): Pipeline
  {
    var running := p.running + p.post + AsSeq(Raised(it));
    if Succeeds(it) then Pipeline(running, [], p.handedOff + [it.read.handler], p.released)
    else if it.read.Delivers? then Pipeline(running, [], p.handedOff, p.released + [it.read.handler])
    else Pipeline(running, [], p.handedOff, p.released)
  }

  /** One iteration on values: the post-processing stage records its
      failures, then the loop body runs. */
  function IterationEffect(p: Pipeline, it: Iteration): Pipeline
  {
    BodyEffect(p.(post := p.post + it.downstream), it)
  }

  /** The loop on values: every scripted iteration runs, whatever the
      earlier ones raised. */
  function LoopEffect(p: Pipeline, script: seq<Iteration>): Pipeline
    decreases |script|
  {
    if script == [] then p else LoopEffect(IterationEffect(p, script[0]), script[1..])
  }

  // ---------------------------------------------------------------------
  // What the loop promises, over any script.

  /** The handlers that reach post-processing: exactly those whose
      execution and hand-off both completed, in order. */
  function HandedOff(script: seq<Iteration>): seq<TaskHandler>
  {
    if script == [] then []
    else (if Succeeds(script[0]) then [script[0].read.handler] else []) + HandedOff(script[1..])
  }

  /** The handlers whose execution or hand-off threw, in order. */
  function FailedHandlers(script: seq<Iteration>): seq<TaskHandler>
  {
    if script == [] then []
    else (if script[0].read.Delivers? && !Succeeds(script[0]) then [script[0].read.handler] else [])
         + FailedHandlers(script[1..])
  }

  /** Every handler the reads deliver, in order. */
  function Delivered(script: seq<Iteration>): seq<TaskHandler>
  {
    if script == [] then []
    else (if script[0].read.Delivers? then [script[0].read.handler] else []) + Delivered(script[1..])
  }

  /** Everything the running queue's exception queue receives, in order:
      per iteration, the drained post-processing failures, then the
      iteration's own failure. */
  function Reported(script: seq<Iteration>): seq<Exception>
  {
    if script == [] then []
    else script[0].downstream + AsSeq(Raised(script[0])) + Reported(script[1..])
  }

  /** An iteration loses nothing already reported, leaves the
      post-processing queue empty, and places a handler (handed off or
      released) exactly when one is delivered. */
  lemma IterationPlacesHandler(p: Pipeline, it: Iteration)
    ensures IterationEffect(p, it).post == []
    ensures p.running <= IterationEffect(p, it).running
    ensures p.handedOff <= IterationEffect(p, it).handedOff && p.released <= IterationEffect(p, it).released
    ensures |IterationEffect(p, it).handedOff| + |IterationEffect(p, it).released|
            == |p.handedOff| + |p.released| + (if it.read.Delivers? then 1 else 0)
  {
  }

  /** The loop only appends: to the running queue, to the handed-off and
      to the released handlers. */
  lemma {:induction false} LoopOnlyAppends(p: Pipeline, script: seq<Iteration>)
    ensures p.running <= LoopEffect(p, script).running
    ensures p.handedOff <= LoopEffect(p, script).handedOff
    ensures p.released <= LoopEffect(p, script).released
    decreases |script|
  {
    if script != [] {
      IterationPlacesHandler(p, script[0]);
      LoopOnlyAppends(IterationEffect(p, script[0]), script[1..]);
    }
  }

  /** A handler is handed to post-processing if and only if its execution
      and its hand-off completed; it is released by the guard if and only
      if one of them threw. */
  lemma {:induction false} HandOffAndRelease(p: Pipeline, script: seq<Iteration>)
    ensures LoopEffect(p, script).handedOff == p.handedOff + HandedOff(script)
    ensures LoopEffect(p, script).released == p.released + FailedHandlers(script)
    decreases |script|
  {
    if script != [] {
      var p1 := IterationEffect(p, script[0]);
      HandOffAndRelease(p1, script[1..]);
    }
  }

  /** Every delivered handler ends in exactly one of the two places:
      handed off or released, never both and never neither. */
  lemma {:induction false} EachHandlerOnce(script: seq<Iteration>)
    ensures multiset(HandedOff(script)) + multiset(FailedHandlers(script)) == multiset(Delivered(script))
  {
    if script != [] {
      EachHandlerOnce(script[1..]);
    }
  }

  /** No failure is lost and none ends the loop: after a non-empty script
      the post-processing exception queue is empty, and the running queue
      holds what it held, then the pending post-processing failures, then
      everything reported during the iterations, in order. */
  lemma {:induction false} FailuresAllReported(p: Pipeline, script: seq<Iteration>)
    requires script != []
    ensures LoopEffect(p, script).post == []
    ensures LoopEffect(p, script).running == p.running + p.post + Reported(script)
    decreases |script|
  {
    var p1 := IterationEffect(p, script[0]);
    if script[1..] == [] {
      assert script == [script[0]];
    } else {
      FailuresAllReported(p1, script[1..]);
    }
  }

  /** Running two scripts back to back is running their concatenation: an
      iteration's failure does not change how later iterations go. */
  lemma {:induction false} LoopComposes(p: Pipeline, a: seq<Iteration>, b: seq<Iteration>)
    ensures LoopEffect(p, a + b) == LoopEffect(LoopEffect(p, a), b)
    decreases |a|
  {
    if a == [] {
      assert a + b == b;
    } else {
      assert (a + b)[0] == a[0] && (a + b)[1..] == a[1..] + b;
      LoopComposes(IterationEffect(p, a[0]), a[1..], b);
    }
  }

  // ---------------------------------------------------------------------
  // The loop itself, over the two task queues.

  /** The post-processing stage, running beside the loop, records the
      failures of the handlers it processes in its own exception queue. */
  method RecordFailures(q: TaskQueueBase, failures: seq<Exception>)
    modifies q
    ensures q.exceptions == old(q.exceptions) + failures
  {
    var k := 0;
    while k < |failures|
      invariant 0 <= k <= |failures|
      invariant q.exceptions == old(q.exceptions) + failures[..k]
    {
      q.AddException(failures[k]);
      k := k + 1;
    }
    assert failures[..k] == failures;
  }

  class RunningTaskProcessor {
    const runningQueue: TaskQueueBase
    const postProcessingQueue: TaskQueueBase

    constructor (runningQueue: TaskQueueBase, postProcessingQueue: TaskQueueBase)
      requires runningQueue != postProcessingQueue
      ensures this.runningQueue == runningQueue && this.postProcessingQueue == postProcessingQueue
      ensures Valid()
    {
      this.runningQueue := runningQueue;
      this.postProcessingQueue := postProcessingQueue;
    }

    ghost predicate Valid()
    {
      runningQueue != postProcessingQueue
    }

    ghost function State(handedOff: seq<TaskHandler>, released: seq<TaskHandler>): Pipeline
      reads runningQueue, postProcessingQueue
    {
      Pipeline(runningQueue.exceptions, postProcessingQueue.exceptions, handedOff, released)
    }

    /** Moves every pending post-processing exception, oldest first, behind
        the running queue's exceptions. */
    method DrainPostProcessingExceptions()
      requires Valid()
      modifies runningQueue, postProcessingQueue
      ensures runningQueue.exceptions == old(runningQueue.exceptions) + old(postProcessingQueue.exceptions)
      ensures postProcessingQueue.exceptions == []
    {
      var found, e := postProcessingQueue.RemoveException();
      while found
        invariant found ==> e.Some?
        invariant found ==> runningQueue.exceptions + [e.value] + postProcessingQueue.exceptions
                            == old(runningQueue.exceptions) + old(postProcessingQueue.exceptions)
        invariant !found ==> postProcessingQueue.exceptions == []
        invariant !found ==> runningQueue.exceptions
                             == old(runningQueue.exceptions) + old(postProcessingQueue.exceptions)
        decreases |postProcessingQueue.exceptions|, found
      {
        runningQueue.AddException(e.value);
        found, e := postProcessingQueue.RemoveException();
      }
    }

    /** One pass of the loop body. The outcome of each collaborator call
        comes from `it`; the release guard is the flag `armed`. */
    method RunIteration(it: Iteration) returns (handedOff: Option<TaskHandler>, released: Option<TaskHandler>)
      requires Valid()
      modifies runningQueue, postProcessingQueue
      ensures State(AsSeq(handedOff), AsSeq(released)) == BodyEffect(old(State([], [])), it)
    {
      handedOff, released := None, None;
      DrainPostProcessingExceptions();
      match it.read {
        case ReadThrows(e) =>
          runningQueue.AddException(e);
        case Delivers(handler) =>
          var armed := true;
          var failure: Option<Exception> := None;
          match it.execute {
            case Throws(e) =>
              failure := Some(e);
            case Completes =>
              match it.handOff {
                case Throws(e) =>
                  failure := Some(e);
                case Completes =>
                  handedOff := Some(handler);
                  armed := false;
              }
          }
          // leaving the scope disposes the guard: it releases the handler
          // unless it was reset after the hand-off, and an exception thrown
          // by the disposal replaces the one in flight
          if armed {
            released := Some(handler);
            if it.release.Throws? {
              failure := Some(it.release.e);
            }
          }
          if failure.Some? {
            runningQueue.AddException(failure.value);
          }
      }
    }

    /** The loop: one iteration per scripted step until the stop signal,
        which is observed once the script is exhausted. */
    method ExecuteAsync(script: seq<Iteration>) returns (handedOff: seq<TaskHandler>, released: seq<TaskHandler>)
      requires Valid()
      modifies runningQueue, postProcessingQueue
      ensures State(handedOff, released) == LoopEffect(old(State([], [])), script)
    {
      handedOff, released := [], [];
      var i := 0;
      while i < |script|
        invariant 0 <= i <= |script|
        invariant LoopEffect(old(State([], [])), script) == LoopEffect(State(handedOff, released), script[i..])
      {
        ghost var before := State(handedOff, released);
        RecordFailures(postProcessingQueue, script[i].downstream);
        var h, r := RunIteration(script[i]);
        handedOff, released := handedOff + AsSeq(h), released + AsSeq(r);
        assert State(handedOff, released) == IterationEffect(before, script[i]);
        assert script[i..][1..] == script[i + 1..];
        i := i + 1;
      }
    }
  }
}
