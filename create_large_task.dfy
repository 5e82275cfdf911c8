/** The state machine that validates the event order of a chunked
    "create large task" request: an InitRequest, then one or more
    header / data-chunks / complete-data cycles, then CompleteRequest.
    Any other event is rejected with an invalid-operation condition and
    leaves the state as it was. */
module CreateLargeTask {
  import opened Failures

  datatype State =
    | Initial             // nothing received yet
    | RequestInitialized  // InitRequest accepted
    | HeaderAdded         // a payload header was received
    | DataChunkAdded      // at least one data chunk of the current payload
    | DataCompleted       // the current payload is complete
    | InitTaskRequestLast // CompleteRequest accepted; terminal

  datatype Event = InitRequest | AddHeader | AddDataChunk | CompleteData | CompleteRequest

  /** The transition table: the successor state, or None when the event is
      illegal in state s. */
  function Next(s: State, e: Event): Option<State>
  {
    match (s, e)
    case (Initial, InitRequest) => Some(RequestInitialized)
    case (RequestInitialized, AddHeader) => Some(HeaderAdded)
    case (DataCompleted, AddHeader) => Some(HeaderAdded)
    case (HeaderAdded, AddDataChunk) => Some(DataChunkAdded)
    case (DataChunkAdded, AddDataChunk) => Some(DataChunkAdded)
    case (DataChunkAdded, CompleteData) => Some(DataCompleted)
    case (DataCompleted, CompleteRequest) => Some(InitTaskRequestLast)
    case _ => None
  }

  /** The outcome of feeding a sequence of events: either every event was
      accepted and the machine is in `state`, or the event at index `at`
      was rejected while the machine was in `state`. */
  datatype RunResult = Reached(state: State) | Rejected(at: nat, state: State)

  /** Feeds the events in order, stopping at the first rejected one. */
  function Run(s: State, events: seq<Event>): (r: RunResult)
    ensures r.Rejected? ==> r.at < |events| && Next(r.state, events[r.at]).None?
    ensures r.Rejected? ==> Run(s, events[..r.at]) == Reached(r.state)
    decreases |events|
  {
    if events == [] then Reached(s)
    else match Next(s, events[0])
      case None => assert events[..0] == []; Rejected(0, s)
      case Some(t) =>
        match Run(t, events[1..])
        case Reached(u) => Reached(u)
        case Rejected(i, u) =>
          assert events[..i + 1][1..] == events[1..][..i];
          Rejected(i + 1, u)
  }

  // ---------------------------------------------------------------------
  // The accepted language, written independently of the transition table:
  // InitRequest (AddHeader AddDataChunk+ CompleteData)+ CompleteRequest.

  function Chunks(n: nat): seq<Event>
  {
    seq(n, _ => AddDataChunk)
  }

  /** One payload: a header, its data chunks, and the completion marker. */
  function Payload(chunks: nat): seq<Event>
  {
    [AddHeader] + Chunks(chunks) + [CompleteData]
  }

  /** Consecutive payloads with the given chunk counts. */
  function Payloads(counts: seq<nat>): seq<Event>
  {
    if counts == [] then [] else Payload(counts[0]) + Payloads(counts[1..])
  }

  /** A whole request whose payloads have the given chunk counts. */
  function Request(counts: seq<nat>): seq<Event>
  {
    [InitRequest] + Payloads(counts) + [CompleteRequest]
  }

  /** At least one payload, and every payload has at least one chunk. */
  predicate WellFormed(counts: seq<nat>)
  {
    |counts| >= 1 && forall i :: 0 <= i < |counts| ==> counts[i] >= 1
  }

  // ---------------------------------------------------------------------
  // Completeness: every request of the grammar reaches InitTaskRequestLast.

  /** Run takes one step: an accepted first event followed by an accepted
      tail is an accepted sequence, and conversely. */
  lemma RunStep(s: State, events: seq<Event>)
    requires events != []
    ensures Run(s, events).Reached? ==>
              Next(s, events[0]).Some? && Run(Next(s, events[0]).value, events[1..]) == Run(s, events)
    ensures Next(s, events[0]).Some? && Run(Next(s, events[0]).value, events[1..]).Reached? ==>
              Run(s, events) == Run(Next(s, events[0]).value, events[1..])
  {
  }

  lemma {:induction false} ChunksThenComplete(n: nat, rest: seq<Event>)
    requires Run(DataCompleted, rest).Reached?
    ensures Run(DataChunkAdded, Chunks(n) + [CompleteData] + rest) == Run(DataCompleted, rest)
  {
    var evs := Chunks(n) + [CompleteData] + rest;
    if n == 0 {
      assert evs[0] == CompleteData && evs[1..] == rest;
    } else {
      assert evs[0] == AddDataChunk;
      assert evs[1..] == Chunks(n - 1) + [CompleteData] + rest;
      ChunksThenComplete(n - 1, rest);
    }
    RunStep(DataChunkAdded, evs);
  }

  /** A payload with at least one chunk takes DataCompleted (or
      RequestInitialized) through to DataCompleted again. */
  lemma PayloadThen(s: State, n: nat, rest: seq<Event>)
    requires s == DataCompleted || s == RequestInitialized
    requires n >= 1 && Run(DataCompleted, rest).Reached?
    ensures Run(s, Payload(n) + rest) == Run(DataCompleted, rest)
  {
    var evs := Payload(n) + rest;
    var tail := Chunks(n - 1) + [CompleteData] + rest;
    assert Chunks(n) == [AddDataChunk] + Chunks(n - 1);
    assert evs[0] == AddHeader && evs[1..][0] == AddDataChunk;
    assert evs[1..][1..] == tail;
    ChunksThenComplete(n - 1, rest);
    RunStep(HeaderAdded, evs[1..]);
    RunStep(s, evs);
  }

  lemma {:induction false} PayloadsThenComplete(counts: seq<nat>)
    requires forall i :: 0 <= i < |counts| ==> counts[i] >= 1
    ensures Run(DataCompleted, Payloads(counts) + [CompleteRequest]) == Reached(InitTaskRequestLast)
  {
    var evs := Payloads(counts) + [CompleteRequest];
    if counts == [] {
      assert evs == [CompleteRequest];
      assert evs[1..] == [];
      RunStep(DataCompleted, evs);
    } else {
      var rest := Payloads(counts[1..]) + [CompleteRequest];
      assert evs == Payload(counts[0]) + rest;
      PayloadsThenComplete(counts[1..]);
      PayloadThen(DataCompleted, counts[0], rest);
    }
  }

  /** Every well-formed request is accepted and ends in InitTaskRequestLast. */
  lemma {:induction false} RequestAccepted(counts: seq<nat>)
    requires WellFormed(counts)
    ensures Run(Initial, Request(counts)) == Reached(InitTaskRequestLast)
  {
    var evs := Request(counts);
    var rest := Payloads(counts[1..]) + [CompleteRequest];
    assert evs[0] == InitRequest;
    assert evs[1..] == Payload(counts[0]) + rest;
    PayloadsThenComplete(counts[1..]);
    PayloadThen(RequestInitialized, counts[0], rest);
    RunStep(Initial, evs);
  }

  // ---------------------------------------------------------------------
  // Soundness: only requests of the grammar reach InitTaskRequestLast.

  /** Nothing is accepted once the request is complete. */
  lemma SingleUse(e: Event)
    ensures Next(InitTaskRequestLast, e).None?
  {
  }

  /** The shape of the transition table: no transition returns to the
      initial state, InitRequest is legal only there, and a payload is
      completed only after at least one chunk. */
  lemma TableShape(s: State, e: Event)
    ensures Next(s, e).Some? ==> Next(s, e).value != Initial
    ensures e == InitRequest ==> (Next(s, e).Some? <==> s == Initial)
    ensures Next(s, e) == Some(DataCompleted) ==> s == DataChunkAdded
  {
  }

  lemma {:induction false} ParseAfterChunk(events: seq<Event>) returns (n: nat, counts: seq<nat>)
    requires Run(DataChunkAdded, events) == Reached(InitTaskRequestLast)
    ensures forall i :: 0 <= i < |counts| ==> counts[i] >= 1
    ensures events == Chunks(n) + [CompleteData] + Payloads(counts) + [CompleteRequest]
    decreases |events|
  {
    RunStep(DataChunkAdded, events);
    if events[0] == AddDataChunk {
      var m, cs := ParseAfterChunk(events[1..]);
      n, counts := m + 1, cs;
      assert Chunks(n) == [AddDataChunk] + Chunks(m);
      assert events == [events[0]] + events[1..];
    } else {
      counts := ParseAfterCompletedData(events[1..]);
      n := 0;
      assert events == [events[0]] + events[1..];
    }
  }

  lemma {:induction false} ParseAfterCompletedData(events: seq<Event>) returns (counts: seq<nat>)
    requires Run(DataCompleted, events) == Reached(InitTaskRequestLast)
    ensures forall i :: 0 <= i < |counts| ==> counts[i] >= 1
    ensures events == Payloads(counts) + [CompleteRequest]
    decreases |events|
  {
    RunStep(DataCompleted, events);
    if events[0] == CompleteRequest {
      if events[1..] != [] {
        RunStep(InitTaskRequestLast, events[1..]);
        assert false;
      }
      counts := [];
      assert events == [CompleteRequest];
    } else {
      var tail := events[1..];
      RunStep(HeaderAdded, tail);
      var m, cs := ParseAfterChunk(tail[1..]);
      counts := [m + 1] + cs;
      assert Chunks(m + 1) == [AddDataChunk] + Chunks(m);
      assert counts[1..] == cs;
      assert events == [AddHeader, AddDataChunk] + tail[1..];
    }
  }

  /** After InitRequest the same events are legal as after a completed
      payload, except CompleteRequest: at least one payload must follow. */
  lemma ParseAfterInit(events: seq<Event>) returns (counts: seq<nat>)
    requires Run(RequestInitialized, events) == Reached(InitTaskRequestLast)
    ensures WellFormed(counts) && events == Payloads(counts) + [CompleteRequest]
  {
    RunStep(RequestInitialized, events);
    assert events[0] == AddHeader;
    RunStep(DataCompleted, events);
    counts := ParseAfterCompletedData(events);
  }

  /** Every event sequence that ends in InitTaskRequestLast from the initial
      state is a well-formed request; `counts` gives its chunk counts. */
  lemma AcceptedIsRequest(events: seq<Event>) returns (counts: seq<nat>)
    requires Run(Initial, events) == Reached(InitTaskRequestLast)
    ensures WellFormed(counts) && events == Request(counts)
  {
    RunStep(Initial, events);
    counts := ParseAfterInit(events[1..]);
    assert events == [events[0]] + events[1..];
  }

  /** The accepted language, both directions. */
  lemma AcceptedIffRequest(events: seq<Event>)
    ensures Run(Initial, events) == Reached(InitTaskRequestLast)
            <==> exists counts :: WellFormed(counts) && events == Request(counts)
  {
    if Run(Initial, events) == Reached(InitTaskRequestLast) {
      var counts := AcceptedIsRequest(events);
    }
    if exists counts :: WellFormed(counts) && events == Request(counts) {
      var counts :| WellFormed(counts) && events == Request(counts);
      RequestAccepted(counts);
    }
  }

  /** Running a concatenation runs the first part, then the second from
      where the first stopped; a rejection in the second part is reported
      at its position in the whole sequence. */
  lemma {:induction false} RunAppend(s: State, a: seq<Event>, b: seq<Event>)
    requires Run(s, a).Reached?
    ensures Run(s, a + b) == match Run(Run(s, a).state, b)
                             case Reached(u) => Reached(u)
                             case Rejected(i, u) => Rejected(|a| + i, u)
    decreases |a|
  {
    if a == [] {
      assert a + b == b;
    } else {
      RunStep(s, a);
      var t := Next(s, a[0]).value;
      assert (a + b)[0] == a[0] && (a + b)[1..] == a[1..] + b;
      RunAppend(t, a[1..], b);
    }
  }

  // ---------------------------------------------------------------------
  // No dead ends: the machine rejects an event exactly where the sequence
  // stops being the beginning of a well-formed request.

  /** From every state, the shortest way to a complete request. */
  function Completion(s: State): (rest: seq<Event>)
    ensures Run(s, rest) == Reached(InitTaskRequestLast)
  {
    match s
    case Initial => [InitRequest, AddHeader, AddDataChunk, CompleteData, CompleteRequest]
    case RequestInitialized => [AddHeader, AddDataChunk, CompleteData, CompleteRequest]
    case HeaderAdded => [AddDataChunk, CompleteData, CompleteRequest]
    case DataChunkAdded => [CompleteData, CompleteRequest]
    case DataCompleted => [CompleteRequest]
    case InitTaskRequestLast => []
  }

  /** Every prefix of an accepted sequence is accepted. */
  lemma {:induction false} PrefixOfAccepted(s: State, events: seq<Event>, k: nat)
    requires Run(s, events).Reached? && k <= |events|
    ensures Run(s, events[..k]).Reached?
    decreases k
  {
    if k > 0 {
      RunStep(s, events);
      var t := Next(s, events[0]).value;
      PrefixOfAccepted(t, events[1..], k - 1);
      assert events[..k][0] == events[0] && events[..k][1..] == events[1..][..k - 1];
      RunStep(s, events[..k]);
    }
  }

  /** No prefix of a well-formed request is rejected. */
  lemma RequestPrefixAccepted(counts: seq<nat>, k: nat)
    requires WellFormed(counts) && k <= |Request(counts)|
    ensures Run(Initial, Request(counts)[..k]).Reached?
  {
    RequestAccepted(counts);
    PrefixOfAccepted(Initial, Request(counts), k);
  }

  /** Every accepted sequence can still be completed to a well-formed
      request: the machine has no dead prefix. */
  lemma ReachedExtendsToRequest(events: seq<Event>)
    requires Run(Initial, events).Reached?
    ensures exists counts :: WellFormed(counts) && events <= Request(counts)
  {
    var s := Run(Initial, events).state;
    var rest := Completion(s);
    RunAppend(Initial, events, rest);
    var counts := AcceptedIsRequest(events + rest);
    assert events <= events + rest;
  }

  /** The rejected event is the first one that no well-formed request
      allows at that position: the events before it begin some request,
      and no request begins with them followed by it. */
  lemma RejectedAtFirstOutOfGrammar(events: seq<Event>)
    requires Run(Initial, events).Rejected?
    ensures exists counts :: WellFormed(counts) && events[..Run(Initial, events).at] <= Request(counts)
    ensures forall counts :: WellFormed(counts) ==> !(events[..Run(Initial, events).at + 1] <= Request(counts))
  {
    var i, s := Run(Initial, events).at, Run(Initial, events).state;
    ReachedExtendsToRequest(events[..i]);
    assert events[..i + 1] == events[..i] + [events[i]];
    RunAppend(Initial, events[..i], [events[i]]);
    assert Run(Initial, events[..i + 1]).Rejected?;
    forall counts | WellFormed(counts)
      ensures !(events[..i + 1] <= Request(counts))
    {
      if events[..i + 1] <= Request(counts) {
        assert Request(counts)[..i + 1] == events[..i + 1];
        RequestPrefixAccepted(counts, i + 1);
      }
    }
  }

  // ---------------------------------------------------------------------
  // The behaviours pinned down by the state machine's unit tests.

  /** A first event other than InitRequest is rejected in the initial state. */
  lemma FirstEventMustInitialize(e: Event)
    requires e != InitRequest
    ensures Run(Initial, [e]) == Rejected(0, Initial)
  {
  }

  /** A second InitRequest is rejected and the request stays initialized. */
  lemma InitRequestTwiceRejected()
    ensures Run(Initial, [InitRequest, InitRequest]) == Rejected(1, RequestInitialized)
  {
  }

  /** CompleteRequest right after data chunks, without CompleteData, is
      rejected and the machine stays in the chunk state. */
  lemma CompleteRequestNeedsCompleteData()
    ensures Run(Initial, [InitRequest, AddHeader, AddDataChunk, AddDataChunk, AddDataChunk, CompleteRequest])
            == Rejected(5, DataChunkAdded)
  {
  }

  /** After a complete request every further event is rejected, so the
      machine cannot be reused. */
  lemma CompletedRequestNotReusable(counts: seq<nat>, more: seq<Event>)
    requires WellFormed(counts) && more != []
    ensures Run(Initial, Request(counts) + more) == Rejected(|Request(counts)|, InitTaskRequestLast)
  {
    RequestAccepted(counts);
    RunAppend(Initial, Request(counts), more);
  }

  // ---------------------------------------------------------------------
  // The object the request handler drives: one current state, advanced or
  // left unchanged by each event method.

  class StateMachine {
    var state: State

    constructor ()
      ensures state == Initial
    {
      state := Initial;
    }

    /** Applies e; on an illegal event reports InvalidOperation and keeps
        the state. */
    method Fire(e: Event) returns (r: Outcome<State>)
      modifies this
      ensures Next(old(state), e).Some? ==> r == Ok(state) && state == Next(old(state), e).value
      ensures Next(old(state), e).None? ==> r == Fail(InvalidOperation) && state == old(state)
    {
      match Next(state, e)
      case Some(t) =>
        state := t;
        r := Ok(t);
      case None =>
        r := Fail(InvalidOperation);
    }

    method InitRequest() returns (r: Outcome<State>)
      modifies this
      ensures old(state) == Initial ==> r == Ok(RequestInitialized) && state == RequestInitialized
      ensures old(state) != Initial ==> r == Fail(InvalidOperation) && state == old(state)
    {
      r := Fire(Event.InitRequest);
    }

    method AddHeader() returns (r: Outcome<State>)
      modifies this
      ensures old(state) in {RequestInitialized, DataCompleted} ==> r == Ok(HeaderAdded) && state == HeaderAdded
      ensures old(state) !in {RequestInitialized, DataCompleted} ==> r == Fail(InvalidOperation) && state == old(state)
    {
      r := Fire(Event.AddHeader);
    }

    method AddDataChunk() returns (r: Outcome<State>)
      modifies this
      ensures old(state) in {HeaderAdded, DataChunkAdded} ==> r == Ok(DataChunkAdded) && state == DataChunkAdded
      ensures old(state) !in {HeaderAdded, DataChunkAdded} ==> r == Fail(InvalidOperation) && state == old(state)
    {
      r := Fire(Event.AddDataChunk);
    }

    method CompleteData() returns (r: Outcome<State>)
      modifies this
      ensures old(state) == DataChunkAdded ==> r == Ok(DataCompleted) && state == DataCompleted
      ensures old(state) != DataChunkAdded ==> r == Fail(InvalidOperation) && state == old(state)
    {
      r := Fire(Event.CompleteData);
    }

    method CompleteRequest() returns (r: Outcome<State>)
      modifies this
      ensures old(state) == DataCompleted ==> r == Ok(InitTaskRequestLast) && state == InitTaskRequestLast
      ensures old(state) != DataCompleted ==> r == Fail(InvalidOperation) && state == old(state)
    {
      r := Fire(Event.CompleteRequest);
    }

    method GetState() returns (s: State)
      ensures s == state
    {
      s := state;
    }
  }
}
