/** Results and the store of the in-memory result table, on values: the
    nested map session id -> result id -> result, and the effect of each
    table operation written as a function of the store it starts from. */
module ResultModel {
  import opened Failures

  datatype ResultStatus = Created | Completed | Aborted

  /** An output slot of a session: the task expected to produce it, and the
      tasks waiting for it. */
  datatype Result = Result(
    sessionId: string,
    resultId: string,
    ownerTaskId: string,
    status: ResultStatus,
    dependentTasks: seq<string>)

  type SessionResults = map<string, Result>
  type Store = map<string, SessionResults>

  /** One entry of an update list: set one field to a value. */
  datatype ResultField =
    | SetStatus(status: ResultStatus)
    | SetOwnerTaskId(ownerTaskId: string)
    | SetDependentTasks(dependentTasks: seq<string>)

  function Apply(r: Result, u: ResultField): Result
  {
    match u
    case SetStatus(s) => r.(status := s)
    case SetOwnerTaskId(t) => r.(ownerTaskId := t)
    case SetDependentTasks(ts) => r.(dependentTasks := ts)
  }

  /** Applies an update list in order; the keys are never updated. */
  function ApplyAll(r: Result, us: seq<ResultField>): (r': Result)
    ensures r'.sessionId == r.sessionId && r'.resultId == r.resultId
    decreases |us|
  {
    if us == [] then r else ApplyAll(Apply(r, us[0]), us[1..])
  }

  /** Every result is stored under its own session id and result id. */
  ghost predicate WellKeyed(store: Store)
  {
    forall s, id :: s in store && id in store[s] ==> store[s][id].sessionId == s && store[s][id].resultId == id
  }

  /** Replacing one session by a map with the same keys whose results keep
      their own keys keeps the store well keyed. */
  lemma SessionUpdateKeepsWellKeyed(store: Store, sessionId: string, session: SessionResults)
    requires WellKeyed(store) && sessionId in store
    requires session.Keys == store[sessionId].Keys
    requires forall id :: id in session ==>
               session[id].sessionId == store[sessionId][id].sessionId && session[id].resultId == store[sessionId][id].resultId
    ensures WellKeyed(store[sessionId := session])
  {
  }

  /** r is stored, under its own keys. */
  ghost predicate IsStored(store: Store, r: Result)
  {
    r.sessionId in store && r.resultId in store[r.sessionId] && store[r.sessionId][r.resultId] == r
  }

  predicate HasKey(store: Store, r: Result)
  {
    r.sessionId in store && r.resultId in store[r.sessionId]
  }

  // ---------------------------------------------------------------------
  // Create

  /** Stores r under its session, creating the session map on demand. */
  function Insert(store: Store, r: Result): Store
  {
    var session := if r.sessionId in store then store[r.sessionId] else map[];
    store[r.sessionId := session[r.resultId := r]]
  }

  /** Create on values: inserts the results in order and stops at the first
      one whose key is already taken; the results before it stay inserted. */
  function CreateAll(store: Store, rs: seq<Result>): (r: (Store, Outcome<()>))
    ensures forall s :: s in store ==> s in r.0 && store[s].Keys <= r.0[s].Keys
    ensures r.1.Fail? ==> r.1.error.KeyAlreadyExists?
    decreases |rs|
  {
    if rs == [] then (store, Ok(()))
    else if HasKey(store, rs[0]) then (store, Fail(KeyAlreadyExists(rs[0].resultId)))
    else CreateAll(Insert(store, rs[0]), rs[1..])
  }

  /** No two of the results share a key, and none has a key already taken. */
  predicate FreshKeys(store: Store, rs: seq<Result>)
  {
    && (forall i :: 0 <= i < |rs| ==> !HasKey(store, rs[i]))
    && (forall i, j :: 0 <= i < j < |rs| ==> (rs[i].sessionId, rs[i].resultId) != (rs[j].sessionId, rs[j].resultId))
  }

  /** Create never overwrites: every entry present before is present after
      with the same value, whether or not the call fails. */
  lemma {:induction false} CreateKeepsExisting(store: Store, rs: seq<Result>)
    ensures forall s, id :: s in store && id in store[s] ==>
              s in CreateAll(store, rs).0 && id in CreateAll(store, rs).0[s]
              && CreateAll(store, rs).0[s][id] == store[s][id]
    decreases |rs|
  {
    if rs != [] && !HasKey(store, rs[0]) {
      var next := Insert(store, rs[0]);
      assert forall s, id :: s in store && id in store[s] ==> s in next && id in next[s] && next[s][id] == store[s][id];
      CreateKeepsExisting(next, rs[1..]);
    }
  }

  /** Create succeeds exactly when the keys are fresh and pairwise distinct,
      and then every result is stored under its keys. */
  lemma {:induction false} CreateSucceedsIffFresh(store: Store, rs: seq<Result>)
    ensures CreateAll(store, rs).1.Ok? <==> FreshKeys(store, rs)
    ensures CreateAll(store, rs).1.Ok? ==> forall i :: 0 <= i < |rs| ==> IsStored(CreateAll(store, rs).0, rs[i])
    decreases |rs|
  {
    if rs != [] {
      var next := Insert(store, rs[0]);
      CreateSucceedsIffFresh(next, rs[1..]);
      if !HasKey(store, rs[0]) {
        CreateKeepsExisting(next, rs[1..]);
        assert IsStored(next, rs[0]);
        if FreshKeys(store, rs) {
          forall i | 0 <= i < |rs[1..]| ensures !HasKey(next, rs[1..][i]) {
            assert rs[1..][i] == rs[i + 1];
          }
          assert FreshKeys(next, rs[1..]);
        }
        if FreshKeys(next, rs[1..]) {
          forall i, j | 0 <= i < j < |rs|
            ensures (rs[i].sessionId, rs[i].resultId) != (rs[j].sessionId, rs[j].resultId)
          {
            if i == 0 {
              assert rs[j] == rs[1..][j - 1];
            } else {
              assert rs[i] == rs[1..][i - 1] && rs[j] == rs[1..][j - 1];
            }
          }
          forall i | 0 <= i < |rs| ensures !HasKey(store, rs[i]) {
            if i > 0 {
              assert rs[i] == rs[1..][i - 1];
            }
          }
        }
        if CreateAll(store, rs).1.Ok? {
          forall i | 0 <= i < |rs| ensures IsStored(CreateAll(store, rs).0, rs[i]) {
            if i > 0 {
              assert rs[i] == rs[1..][i - 1];
            }
          }
        }
      } else {
        assert !FreshKeys(store, rs);
      }
    }
  }

  /** Freshness unfolds one result at a time: the first result's key is
      free, and the rest are fresh once it is inserted. */
  lemma FreshCons(store: Store, rs: seq<Result>)
    requires rs != []
    ensures FreshKeys(store, rs) <==> !HasKey(store, rs[0]) && FreshKeys(Insert(store, rs[0]), rs[1..])
  {
    var next := Insert(store, rs[0]);
    forall i | 0 <= i < |rs[1..]| ensures rs[1..][i] == rs[i + 1] { }
    if FreshKeys(store, rs) {
      forall i | 0 <= i < |rs[1..]| ensures !HasKey(next, rs[1..][i]) {
        assert (rs[0].sessionId, rs[0].resultId) != (rs[i + 1].sessionId, rs[i + 1].resultId);
      }
    }
    if !HasKey(store, rs[0]) && FreshKeys(next, rs[1..]) {
      forall i, j | 0 <= i < j < |rs|
        ensures (rs[i].sessionId, rs[i].resultId) != (rs[j].sessionId, rs[j].resultId)
      {
        if i == 0 {
          assert !HasKey(next, rs[1..][j - 1]);
        } else {
          assert rs[i] == rs[1..][i - 1] && rs[j] == rs[1..][j - 1];
        }
      }
      forall i | 0 <= i < |rs| ensures !HasKey(store, rs[i]) {
        if i > 0 {
          assert !HasKey(next, rs[1..][i - 1]);
        }
      }
    }
  }

  /** A failing Create stops at the first result whose key is taken, by the
      store or by an earlier result of the same call: the results before it
      are fresh and stay inserted, the store is the one Create of those
      results alone gives, and the failure names that result. */
  lemma {:induction false} CreateFailsAtFirstTaken(store: Store, rs: seq<Result>) returns (k: nat)
    requires CreateAll(store, rs).1.Fail?
    ensures k < |rs| && FreshKeys(store, rs[..k]) && !FreshKeys(store, rs[..k + 1])
    ensures CreateAll(store, rs).1 == Fail(KeyAlreadyExists(rs[k].resultId))
    ensures CreateAll(store, rs).0 == CreateAll(store, rs[..k]).0
    ensures forall i :: 0 <= i < k ==> IsStored(CreateAll(store, rs).0, rs[i])
    decreases |rs|
  {
    if HasKey(store, rs[0]) {
      k := 0;
      FreshCons(store, rs[..1]);
    } else {
      var next := Insert(store, rs[0]);
      var k' := CreateFailsAtFirstTaken(next, rs[1..]);
      k := k' + 1;
      assert rs[..k][0] == rs[0] && rs[..k][1..] == rs[1..][..k'];
      assert rs[..k + 1][0] == rs[0] && rs[..k + 1][1..] == rs[1..][..k' + 1];
      FreshCons(store, rs[..k]);
      FreshCons(store, rs[..k + 1]);
    }
    CreateSucceedsIffFresh(store, rs[..k]);
    forall i | 0 <= i < k ensures IsStored(CreateAll(store, rs).0, rs[i]) {
      assert rs[..k][i] == rs[i];
    }
  }

  /** Create keeps every result under its own keys. */
  lemma {:induction false} CreateKeepsWellKeyed(store: Store, rs: seq<Result>)
    requires WellKeyed(store)
    ensures WellKeyed(CreateAll(store, rs).0)
    decreases |rs|
  {
    if rs != [] && !HasKey(store, rs[0]) {
      CreateKeepsWellKeyed(Insert(store, rs[0]), rs[1..]);
    }
  }

  // ---------------------------------------------------------------------
  // ChangeResultOwnership

  /** Hands every result of the session owned by oldTaskId to newTaskId. */
  function Reassign(session: SessionResults, oldTaskId: string, newTaskId: string): SessionResults
  {
    map id | id in session :: if session[id].ownerTaskId == oldTaskId
                              then session[id].(ownerTaskId := newTaskId)
                              else session[id]
  }

  /** One Reassign per request, in order. */
  function ReassignAll(session: SessionResults, oldTaskId: string, newTaskIds: seq<string>): SessionResults
    decreases |newTaskIds|
  {
    if newTaskIds == [] then session
    else ReassignAll(Reassign(session, oldTaskId, newTaskIds[0]), oldTaskId, newTaskIds[1..])
  }

  /** The first requested owner different from oldTaskId, or oldTaskId. */
  function Winner(oldTaskId: string, newTaskIds: seq<string>): (w: string)
    ensures w == oldTaskId || w in newTaskIds
    decreases |newTaskIds|
  {
    if newTaskIds == [] then oldTaskId
    else if newTaskIds[0] != oldTaskId then newTaskIds[0]
    else Winner(oldTaskId, newTaskIds[1..])
  }

  /** Winner is the first request naming a task other than oldTaskId ... */
  lemma {:induction false} WinnerIsFirstOther(oldTaskId: string, newTaskIds: seq<string>, k: nat)
    requires k < |newTaskIds| && newTaskIds[k] != oldTaskId
    requires forall j :: 0 <= j < k ==> newTaskIds[j] == oldTaskId
    ensures Winner(oldTaskId, newTaskIds) == newTaskIds[k]
    decreases k
  {
    if k > 0 {
      WinnerIsFirstOther(oldTaskId, newTaskIds[1..], k - 1);
    }
  }

  /** ... and oldTaskId itself when every request names oldTaskId. */
  lemma {:induction false} WinnerWhenNoOther(oldTaskId: string, newTaskIds: seq<string>)
    requires forall j :: 0 <= j < |newTaskIds| ==> newTaskIds[j] == oldTaskId
    ensures Winner(oldTaskId, newTaskIds) == oldTaskId
    decreases |newTaskIds|
  {
    if newTaskIds != [] {
      WinnerWhenNoOther(oldTaskId, newTaskIds[1..]);
    }
  }

  lemma ReassignToSelf(session: SessionResults, oldTaskId: string)
    ensures Reassign(session, oldTaskId, oldTaskId) == session
  {
  }

  lemma ReassignTwice(session: SessionResults, oldTaskId: string, first: string, second: string)
    requires first != oldTaskId
    ensures Reassign(Reassign(session, oldTaskId, first), oldTaskId, second) == Reassign(session, oldTaskId, first)
  {
  }

  /** With several requests the first one that names a different task wins:
      after it no result is owned by oldTaskId any more, so the later
      requests change nothing. */
  lemma {:induction false} FirstRequestWins(session: SessionResults, oldTaskId: string, newTaskIds: seq<string>)
    ensures ReassignAll(session, oldTaskId, newTaskIds) == Reassign(session, oldTaskId, Winner(oldTaskId, newTaskIds))
    decreases |newTaskIds|
  {
    if newTaskIds == [] {
      ReassignToSelf(session, oldTaskId);
    } else if newTaskIds[0] == oldTaskId {
      ReassignToSelf(session, oldTaskId);
      FirstRequestWins(session, oldTaskId, newTaskIds[1..]);
    } else {
      var first := Reassign(session, oldTaskId, newTaskIds[0]);
      ReassignAllIdle(first, oldTaskId, newTaskIds[1..], newTaskIds[0]);
    }
  }

  lemma {:induction false} ReassignAllIdle(session: SessionResults, oldTaskId: string, newTaskIds: seq<string>, first: string)
    requires first != oldTaskId
    requires forall id :: id in session ==> session[id].ownerTaskId != oldTaskId
    ensures ReassignAll(session, oldTaskId, newTaskIds) == session
    decreases |newTaskIds|
  {
    if newTaskIds != [] {
      assert Reassign(session, oldTaskId, newTaskIds[0]) == session;
      ReassignAllIdle(session, oldTaskId, newTaskIds[1..], first);
    }
  }

  /** Only results owned by oldTaskId change, and only their owner. */
  lemma ReassignOnlyOwned(session: SessionResults, oldTaskId: string, newTaskId: string)
    ensures Reassign(session, oldTaskId, newTaskId).Keys == session.Keys
    ensures forall id :: id in session && session[id].ownerTaskId != oldTaskId ==>
              Reassign(session, oldTaskId, newTaskId)[id] == session[id]
    ensures forall id :: id in session && session[id].ownerTaskId == oldTaskId ==>
              Reassign(session, oldTaskId, newTaskId)[id].ownerTaskId == newTaskId
  {
  }

  // ---------------------------------------------------------------------
  // AddTaskDependencies

  /** AddTaskDependencies on one session: appends each entry's task ids to
      its result's dependents, in order; stops at the first unknown result,
      keeping the appends made before it. */
  function AddDependencies(session: SessionResults, deps: seq<(string, seq<string>)>): (r: (SessionResults, Outcome<()>))
    ensures r.0.Keys == session.Keys
    ensures forall id :: id in session ==> r.0[id] == session[id].(dependentTasks := r.0[id].dependentTasks)
    ensures r.1.Fail? ==> r.1.error.ResultNotFound? && r.1.error.resultId !in session
    decreases |deps|
  {
    if deps == [] then (session, Ok(()))
    else
      var (resultId, taskIds) := deps[0];
      if resultId !in session then (session, Fail(ResultNotFound(resultId)))
      else
        var r := session[resultId];
        AddDependencies(session[resultId := r.(dependentTasks := r.dependentTasks + taskIds)], deps[1..])
  }

  /** The task ids the entries for resultId contribute, in order. */
  function Collected(deps: seq<(string, seq<string>)>, resultId: string): seq<string>
    decreases |deps|
  {
    if deps == [] then []
    else (if deps[0].0 == resultId then deps[0].1 else []) + Collected(deps[1..], resultId)
  }

  /** The call succeeds exactly when every named result exists; then each
      result's dependents are its old dependents followed by every task id
      listed for it, in order and without deduplication, and nothing else
      about it changes. */
  lemma {:induction false} DependenciesAppended(session: SessionResults, deps: seq<(string, seq<string>)>)
    ensures AddDependencies(session, deps).1.Ok? <==> forall i :: 0 <= i < |deps| ==> deps[i].0 in session
    ensures AddDependencies(session, deps).1.Ok? ==>
              AddDependencies(session, deps).0.Keys == session.Keys &&
              forall id :: id in session ==>
                AddDependencies(session, deps).0[id]
                == session[id].(dependentTasks := session[id].dependentTasks + Collected(deps, id))
    decreases |deps|
  {
    if deps != [] {
      var (resultId, taskIds) := deps[0];
      if resultId in session {
        var r := session[resultId];
        var next := session[resultId := r.(dependentTasks := r.dependentTasks + taskIds)];
        DependenciesAppended(next, deps[1..]);
        forall i | 0 <= i < |deps[1..]| ensures deps[1..][i] == deps[i + 1] { }
        if AddDependencies(session, deps).1.Ok? {
          forall id | id in session
            ensures AddDependencies(session, deps).0[id]
                    == session[id].(dependentTasks := session[id].dependentTasks + Collected(deps, id))
          {
            if id == resultId {
              assert session[id].dependentTasks + taskIds + Collected(deps[1..], id)
                     == session[id].dependentTasks + Collected(deps, id);
            } else {
              assert Collected(deps, id) == Collected(deps[1..], id);
            }
          }
        }
      } else {
        assert !(deps[0].0 in session);
      }
    }
  }

  /** A failing call stops at the first entry naming an unknown result:
      the failure names it, and the session is what the entries before it
      alone give. */
  lemma {:induction false} DependenciesFailAtFirstMissing(session: SessionResults, deps: seq<(string, seq<string>)>)
    returns (k: nat)
    requires AddDependencies(session, deps).1.Fail?
    ensures k < |deps| && deps[k].0 !in session
    ensures forall i :: 0 <= i < k ==> deps[i].0 in session
    ensures AddDependencies(session, deps).1 == Fail(ResultNotFound(deps[k].0))
    ensures AddDependencies(session, deps).0 == AddDependencies(session, deps[..k]).0
    decreases |deps|
  {
    var (resultId, taskIds) := deps[0];
    if resultId !in session {
      k := 0;
    } else {
      var r := session[resultId];
      var next := session[resultId := r.(dependentTasks := r.dependentTasks + taskIds)];
      var k' := DependenciesFailAtFirstMissing(next, deps[1..]);
      k := k' + 1;
      assert deps[..k][0] == deps[0] && deps[..k][1..] == deps[1..][..k'];
      forall i | 0 <= i < k ensures deps[i].0 in session {
        if i > 0 {
          assert deps[i] == deps[1..][i - 1];
        }
      }
    }
  }

  /** Dependents are append-only, even when the call fails part-way: every
      result keeps its old dependents as a prefix and its other fields. */
  lemma {:induction false} DependenciesAppendOnly(session: SessionResults, deps: seq<(string, seq<string>)>)
    ensures AddDependencies(session, deps).0.Keys == session.Keys
    ensures forall id :: id in session ==>
              var r := AddDependencies(session, deps).0[id];
              && session[id].dependentTasks <= r.dependentTasks
              && r == session[id].(dependentTasks := r.dependentTasks)
    decreases |deps|
  {
    if deps != [] {
      var (resultId, taskIds) := deps[0];
      if resultId in session {
        var r := session[resultId];
        var next := session[resultId := r.(dependentTasks := r.dependentTasks + taskIds)];
        DependenciesAppendOnly(next, deps[1..]);
        forall id | id in session
          ensures session[id].dependentTasks <= AddDependencies(session, deps).0[id].dependentTasks
        {
          assert session[id].dependentTasks <= next[id].dependentTasks;
        }
      }
    }
  }

  // ---------------------------------------------------------------------
  // SetTaskOwnership

  /** SetTaskOwnership on one session: gives each named result its task id,
      in order; stops at the first unknown result, keeping the earlier
      updates. */
  function SetOwners(session: SessionResults, requests: seq<(string, string)>): (r: (SessionResults, Outcome<()>))
    ensures r.0.Keys == session.Keys
    ensures forall id :: id in session ==> r.0[id] == session[id].(ownerTaskId := r.0[id].ownerTaskId)
    ensures r.1.Fail? ==> r.1.error.ResultNotFound? && r.1.error.resultId !in session
    decreases |requests|
  {
    if requests == [] then (session, Ok(()))
    else
      var (resultId, taskId) := requests[0];
      if resultId !in session then (session, Fail(ResultNotFound(resultId)))
      else SetOwners(session[resultId := session[resultId].(ownerTaskId := taskId)], requests[1..])
  }

  /** A failing call stops at the first request naming an unknown result:
      the failure names it, and the session is what the requests before it
      alone give. */
  lemma {:induction false} SetOwnersFailsAtFirstMissing(session: SessionResults, requests: seq<(string, string)>)
    returns (k: nat)
    requires SetOwners(session, requests).1.Fail?
    ensures k < |requests| && requests[k].0 !in session
    ensures forall i :: 0 <= i < k ==> requests[i].0 in session
    ensures SetOwners(session, requests).1 == Fail(ResultNotFound(requests[k].0))
    ensures SetOwners(session, requests).0 == SetOwners(session, requests[..k]).0
    decreases |requests|
  {
    var (resultId, taskId) := requests[0];
    if resultId !in session {
      k := 0;
    } else {
      var next := session[resultId := session[resultId].(ownerTaskId := taskId)];
      var k' := SetOwnersFailsAtFirstMissing(next, requests[1..]);
      k := k' + 1;
      assert requests[..k][0] == requests[0] && requests[..k][1..] == requests[1..][..k'];
      forall i | 0 <= i < k ensures requests[i].0 in session {
        if i > 0 {
          assert requests[i] == requests[1..][i - 1];
        }
      }
    }
  }

  /** The owner a result ends with: the task id of the last request naming
      it, or its current owner if none does. */
  function LastOwner(current: string, requests: seq<(string, string)>, resultId: string): string
    decreases |requests|
  {
    if requests == [] then current
    else LastOwner(if requests[0].0 == resultId then requests[0].1 else current, requests[1..], resultId)
  }

  /** The call succeeds exactly when every named result exists; then each
      named result is owned by the last task named for it, and nothing else
      changes. */
  lemma {:induction false} OwnersSet(session: SessionResults, requests: seq<(string, string)>)
    ensures SetOwners(session, requests).1.Ok? <==> forall i :: 0 <= i < |requests| ==> requests[i].0 in session
    ensures SetOwners(session, requests).0.Keys == session.Keys
    ensures SetOwners(session, requests).1.Ok? ==>
              forall id :: id in session ==>
                SetOwners(session, requests).0[id]
                == session[id].(ownerTaskId := LastOwner(session[id].ownerTaskId, requests, id))
    decreases |requests|
  {
    if requests != [] {
      var (resultId, taskId) := requests[0];
      if resultId in session {
        var next := session[resultId := session[resultId].(ownerTaskId := taskId)];
        OwnersSet(next, requests[1..]);
        forall i | 0 <= i < |requests[1..]| ensures requests[1..][i] == requests[i + 1] { }
        if SetOwners(session, requests).1.Ok? {
          forall id | id in session
            ensures SetOwners(session, requests).0[id]
                    == session[id].(ownerTaskId := LastOwner(session[id].ownerTaskId, requests, id))
          {
            assert next[id].ownerTaskId == if resultId == id then taskId else session[id].ownerTaskId;
          }
        }
      }
    }
  }

  // ---------------------------------------------------------------------
  // UpdateManyResults

  /** The results of one session with the update list applied to those the
      filter selects. */
  function UpdatedSession(session: SessionResults, filter: Result -> bool, us: seq<ResultField>): SessionResults
  {
    map id | id in session :: if filter(session[id]) then ApplyAll(session[id], us) else session[id]
  }

  function UpdatedWhere(store: Store, filter: Result -> bool, us: seq<ResultField>): Store
  {
    map s | s in store :: UpdatedSession(store[s], filter, us)
  }

  /** A bulk update keeps every result under its own keys. */
  lemma UpdatedWhereKeepsWellKeyed(store: Store, filter: Result -> bool, us: seq<ResultField>)
    requires WellKeyed(store)
    ensures WellKeyed(UpdatedWhere(store, filter, us))
  {
  }

  /** The stored results the filter selects. */
  ghost function Selected(store: Store, filter: Result -> bool): set<Result>
  {
    set s, id | s in store && id in store[s] && filter(store[s][id]) :: store[s][id]
  }

  lemma SelectedIff(store: Store, filter: Result -> bool, r: Result)
    requires WellKeyed(store)
    ensures r in Selected(store, filter) <==> IsStored(store, r) && filter(r)
  {
    if IsStored(store, r) && filter(r) {
      assert store[r.sessionId][r.resultId] == r;
    }
  }

  // ---------------------------------------------------------------------
  // ListResultsAsync

  /** The order of the listing on an abstract integer key: ascending, or
      descending. */
  predicate Before(a: Result, b: Result, key: Result -> int, ascending: bool)
  {
    if ascending then key(a) <= key(b) else key(a) >= key(b)
  }

  predicate Ordered(s: seq<Result>, key: Result -> int, ascending: bool)
  {
    forall i, j :: 0 <= i < j < |s| ==> Before(s[i], s[j], key, ascending)
  }

  ghost predicate NoDuplicates(s: seq<Result>)
  {
    forall x :: multiset(s)[x] <= 1
  }

  function InsertInOrder(x: Result, s: seq<Result>, key: Result -> int, ascending: bool): (r: seq<Result>)
    requires Ordered(s, key, ascending)
    ensures Ordered(r, key, ascending) && multiset(r) == multiset(s) + multiset{x}
    decreases |s|
  {
    if s == [] then [x]
    else if Before(x, s[0], key, ascending) then [x] + s
    else
      var rest := InsertInOrder(x, s[1..], key, ascending);
      assert s == [s[0]] + s[1..];
      HeadBeforeInsertion(x, s, rest, key, ascending);
      [s[0]] + rest
  }

  lemma HeadBeforeInsertion(x: Result, s: seq<Result>, rest: seq<Result>, key: Result -> int, ascending: bool)
    requires s != [] && Ordered(s, key, ascending) && !Before(x, s[0], key, ascending)
    requires multiset(rest) == multiset(s[1..]) + multiset{x}
    ensures forall k :: 0 <= k < |rest| ==> Before(s[0], rest[k], key, ascending)
  {
    forall k | 0 <= k < |rest| ensures Before(s[0], rest[k], key, ascending) {
      assert rest[k] in multiset(rest);
      if rest[k] != x {
        assert rest[k] in multiset(s[1..]);
        var j :| 0 <= j < |s[1..]| && s[1..][j] == rest[k];
        assert s[j + 1] == rest[k];
      }
    }
  }

  /** The filtered results in the listing's order (an insertion sort). */
  function SortBy(s: seq<Result>, key: Result -> int, ascending: bool): (r: seq<Result>)
    ensures Ordered(r, key, ascending) && multiset(r) == multiset(s)
    decreases |s|
  {
    if s == [] then []
    else
      assert s == [s[0]] + s[1..];
      InsertInOrder(s[0], SortBy(s[1..], key, ascending), key, ascending)
  }

  function Filter(s: seq<Result>, filter: Result -> bool): (r: seq<Result>)
    ensures forall x :: multiset(r)[x] == if filter(x) then multiset(s)[x] else 0
    decreases |s|
  {
    if s == [] then []
    else
      assert s == [s[0]] + s[1..];
      (if filter(s[0]) then [s[0]] else []) + Filter(s[1..], filter)
  }

  /** Skip(n) then Take(size) as the query operators do: a negative count
      skips or takes nothing. */
  function Page(s: seq<Result>, page: int, pageSize: int): (r: seq<Result>)
    ensures var start := if page * pageSize <= 0 then 0 else if page * pageSize >= |s| then |s| else page * pageSize;
            && |r| == (if pageSize <= 0 then 0 else if start + pageSize <= |s| then pageSize else |s| - start)
            && r == s[start..start + |r|]
  {
    var skip := page * pageSize;
    var rest := if skip <= 0 then s else if skip >= |s| then [] else s[skip..];
    if pageSize <= 0 then [] else if pageSize >= |rest| then rest else rest[..pageSize]
  }

  /** The listing: `ordered` holds each selected result once, in order. */
  ghost predicate IsListing(ordered: seq<Result>, selected: set<Result>, key: Result -> int, ascending: bool)
  {
    && Ordered(ordered, key, ascending)
    && NoDuplicates(ordered)
    && (forall r :: r in ordered <==> r in selected)
  }

  /** A sequence without duplicates has as many elements as its set. */
  lemma {:induction false} NoDuplicatesCardinality(s: seq<Result>)
    requires NoDuplicates(s)
    ensures |set x | x in s| == |s|
    decreases |s|
  {
    if s != [] {
      assert s == [s[0]] + s[1..];
      assert multiset(s) == multiset{s[0]} + multiset(s[1..]);
      forall x ensures multiset(s[1..])[x] <= 1 {
        assert multiset(s)[x] == multiset(s[1..])[x] + (if x == s[0] then 1 else 0);
      }
      NoDuplicatesCardinality(s[1..]);
      assert s[0] !in multiset(s[1..]) by {
        assert multiset(s)[s[0]] == multiset(s[1..])[s[0]] + 1;
      }
      assert (set x | x in s) == (set x | x in s[1..]) + {s[0]};
    }
  }

  // ---------------------------------------------------------------------
  // A worked example: result r1 of session S1 owned by T1, with no
  // dependents; registering T2 as a dependent, then moving
  // the ownership from T1 to T3.

  lemma DependencyThenOwnershipScenario()
    ensures var session := map["r1" := Result("S1", "r1", "T1", Created, [])];
            var (withDeps, outcome) := AddDependencies(session, [("r1", ["T2"])]);
            && outcome.Ok?
            && withDeps["r1"].dependentTasks == ["T2"]
            && ReassignAll(withDeps, "T1", ["T3"])["r1"].ownerTaskId == "T3"
  {
    var session := map["r1" := Result("S1", "r1", "T1", Created, [])];
    var deps := [("r1", ["T2"])];
    assert deps[1..] == [];
    var expected := map["r1" := Result("S1", "r1", "T1", Created, ["T2"])];
    assert session["r1"].dependentTasks + ["T2"] == ["T2"];
    assert session["r1" := session["r1"].(dependentTasks := session["r1"].dependentTasks + ["T2"])] == expected;
    assert AddDependencies(session, deps) == AddDependencies(expected, []);
    assert ReassignAll(expected, "T1", ["T3"]) == Reassign(expected, "T1", "T3") by {
      assert ["T3"][1..] == [];
    }
  }
}
