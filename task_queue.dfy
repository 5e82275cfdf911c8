/** The exception side-queue of a task queue: a FIFO of deferred failures
    with a non-blocking try-dequeue. The rendezvous channel the task queue
    also carries is not part of this module. */
module TaskQueue {
  import opened Failures

  /** A recorded failure; only its message is kept. */
  datatype Exception = Exception(message: string)

  class TaskQueueBase {
    /** Recorded exceptions, oldest first. */
    var exceptions: seq<Exception>

    constructor ()
      ensures exceptions == []
    {
      exceptions := [];
    }

    /** Records e behind every exception already recorded. */
    method AddException(e: Exception)
      modifies this
      ensures exceptions == old(exceptions) + [e]
    {
      exceptions := exceptions + [e];
    }

    /** Takes out the oldest recorded exception, if there is one. */
    method RemoveException() returns (found: bool, e: Option<Exception>)
      modifies this
      ensures found <==> old(exceptions) != []
      ensures found ==> e == Some(old(exceptions)[0]) && exceptions == old(exceptions)[1..]
      ensures !found ==> e == None && exceptions == old(exceptions)
    {
      found := |exceptions| > 0;
      if found {
        e := Some(exceptions[0]);
        exceptions := exceptions[1..];
      } else {
        e := None;
      }
    }
  }

  // ---------------------------------------------------------------------
  // Order of removal over any sequence of calls.

  /** A call on the queue: AddException(e) or RemoveException(). */
  datatype QueueCall = Add(e: Exception) | Remove

  /** The contents after the calls, and the exceptions the successful
      RemoveException calls returned, in order; each call has the effect
      its method's contract states. */
  function Replay(q: seq<Exception>, calls: seq<QueueCall>): (seq<Exception>, seq<Exception>)
    decreases |calls|
  {
    if calls == [] then (q, [])
    else match calls[0]
      case Add(e) => Replay(q + [e], calls[1..])
      case Remove =>
        if q == [] then Replay(q, calls[1..])
        else var (rest, removed) := Replay(q[1..], calls[1..]); (rest, [q[0]] + removed)
  }

  /** The exceptions the calls add, in order. */
  function Added(calls: seq<QueueCall>): seq<Exception>
  {
    if calls == [] then []
    else match calls[0]
      case Add(e) => [e] + Added(calls[1..])
      case Remove => Added(calls[1..])
  }

  /** Performs the calls on q in order; `removed` collects what the
      successful RemoveException calls returned. Its effect is Replay's. */
  method RunCalls(q: TaskQueueBase, calls: seq<QueueCall>) returns (removed: seq<Exception>)
    modifies q
    ensures (q.exceptions, removed) == Replay(old(q.exceptions), calls)
  {
    removed := [];
    var i := 0;
    assert calls[i..] == calls;
    while i < |calls|
      invariant 0 <= i <= |calls|
      invariant Replay(old(q.exceptions), calls).0 == Replay(q.exceptions, calls[i..]).0
      invariant Replay(old(q.exceptions), calls).1 == removed + Replay(q.exceptions, calls[i..]).1
    {
      ghost var before := q.exceptions;
      assert calls[i..][0] == calls[i] && calls[i..][1..] == calls[i + 1..];
      match calls[i] {
        case Add(e) =>
          q.AddException(e);
          assert Replay(before, calls[i..]) == Replay(q.exceptions, calls[i + 1..]);
        case Remove =>
          var found, e := q.RemoveException();
          if found {
            assert Replay(before, calls[i..])
                   == (Replay(q.exceptions, calls[i + 1..]).0, [e.value] + Replay(q.exceptions, calls[i + 1..]).1);
            assert removed + [e.value] + Replay(q.exceptions, calls[i + 1..]).1
                   == removed + ([e.value] + Replay(q.exceptions, calls[i + 1..]).1);
            removed := removed + [e.value];
          } else {
            assert Replay(before, calls[i..]) == Replay(q.exceptions, calls[i + 1..]);
          }
      }
      i := i + 1;
    }
    assert calls[i..] == [];
    assert removed + Replay(q.exceptions, calls[i..]).1 == removed;
  }

  /** FIFO: whatever the interleaving of calls, the exceptions come out in
      the order they went in, and the ones still queued follow them; none
      is lost or duplicated. */
  lemma {:induction false} RemovedInInsertionOrder(q: seq<Exception>, calls: seq<QueueCall>)
    ensures Replay(q, calls).1 + Replay(q, calls).0 == q + Added(calls)
    decreases |calls|
  {
    if calls != [] {
      match calls[0]
      case Add(e) =>
        RemovedInInsertionOrder(q + [e], calls[1..]);
        assert q + [e] + Added(calls[1..]) == q + Added(calls);
      case Remove =>
        if q == [] {
          RemovedInInsertionOrder(q, calls[1..]);
        } else {
          RemovedInInsertionOrder(q[1..], calls[1..]);
          var (rest, removed) := Replay(q[1..], calls[1..]);
          assert Replay(q, calls) == (rest, [q[0]] + removed);
          assert Added(calls) == Added(calls[1..]);
          assert [q[0]] + removed + rest == [q[0]] + (removed + rest);
          assert q == [q[0]] + q[1..];
        }
    }
  }
}
