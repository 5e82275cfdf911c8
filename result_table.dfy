/** The in-memory result table: a nested map session id -> result id ->
    result, changed in place by each operation. Every method states its new
    store as the corresponding function of `ResultModel` applied to the old
    one; the properties of those functions are proved there. */
module MemoryResultTable {
  import opened Failures
  import opened ResultModel

  datatype Health = Healthy | Unhealthy

  class ResultTable {
    var results: Store
    var isInitialized: bool

    /** Every result is stored under its own session id and result id. */
    ghost predicate Valid()
      reads this
    {
      WellKeyed(results)
    }

    /** A table over the store it is given. */
    constructor (results: Store)
      requires WellKeyed(results)
      ensures this.results == results && !isInitialized
      ensures Valid()
    {
      this.results := results;
      isInitialized := false;
    }

    /** Inserts the results in order; fails with KeyAlreadyExists at the
        first one whose key is taken, keeping the ones inserted before it. */
    method Create(rs: seq<Result>) returns (outcome: Outcome<()>)
      requires Valid()
      modifies this
      ensures (results, outcome) == CreateAll(old(results), rs)
      ensures isInitialized == old(isInitialized)
      ensures Valid()
    {
      CreateKeepsWellKeyed(results, rs);
      var i := 0;
      while i < |rs|
        invariant 0 <= i <= |rs|
        invariant CreateAll(old(results), rs) == CreateAll(results, rs[i..])
        invariant isInitialized == old(isInitialized)
      {
        var r := rs[i];
        assert rs[i..][0] == r && rs[i..][1..] == rs[i + 1..];
        // the session map is created on demand, so adding to a new session
        // cannot fail
        var sessionResults := if r.sessionId in results then results[r.sessionId] else map[];
        if r.resultId in sessionResults {
          return Fail(KeyAlreadyExists(r.resultId));
        }
        results := results[r.sessionId := sessionResults[r.resultId := r]];
        i := i + 1;
      }
      outcome := Ok(());
    }

    /** One pass of ChangeResultOwnership: a snapshot of the session's
        results owned by oldTaskId, each compared with the stored value and
        replaced by a copy owned by newTaskId. */
    method ReassignPass(sessionId: string, oldTaskId: string, newTaskId: string)
      requires Valid() && sessionId in results
      modifies this
      ensures results == old(results)[sessionId := Reassign(old(results)[sessionId], oldTaskId, newTaskId)]
      ensures isInitialized == old(isInitialized)
      ensures Valid()
    {
      var snapshot := results[sessionId];
      // the session's own dictionary, updated entry by entry
      var session := snapshot;
      var pending := set id | id in snapshot && snapshot[id].ownerTaskId == oldTaskId;
      ghost var owned := pending;
      while pending != {}
        invariant pending <= owned
        invariant session.Keys == snapshot.Keys
        invariant forall id :: id in snapshot ==>
                    session[id] == if id in owned && id !in pending
                                   then snapshot[id].(ownerTaskId := newTaskId)
                                   else snapshot[id]
        decreases pending
      {
        var id :| id in pending;
        var result := snapshot[id];
        // compare-and-swap against the snapshot value
        if result.resultId in session && session[result.resultId] == result {
          session := session[result.resultId := result.(ownerTaskId := newTaskId)];
        }
        pending := pending - {id};
      }
      assert session == Reassign(snapshot, oldTaskId, newTaskId);
      SessionUpdateKeepsWellKeyed(results, sessionId, session);
      results := results[sessionId := session];
    }

    /** Hands the session's results owned by oldTaskId over, one pass per
        request; an unknown session fails with KeyNotFound as soon as there
        is a request to serve. */
    method ChangeResultOwnership(sessionId: string, oldTaskId: string, newTaskIds: seq<string>)
      returns (outcome: Outcome<()>)
      requires Valid()
      modifies this
      ensures newTaskIds != [] && sessionId !in old(results) ==>
                outcome == Fail(KeyNotFound(sessionId)) && results == old(results)
      ensures newTaskIds == [] || sessionId in old(results) ==>
                && outcome == Ok(())
                && results == if sessionId in old(results)
                              then old(results)[sessionId := ReassignAll(old(results)[sessionId], oldTaskId, newTaskIds)]
                              else old(results)
      ensures isInitialized == old(isInitialized)
      ensures Valid()
    {
      var i := 0;
      while i < |newTaskIds|
        invariant 0 <= i <= |newTaskIds|
        invariant i > 0 ==> sessionId in old(results)
        invariant results.Keys == old(results).Keys
        invariant sessionId in results ==> results == old(results)[sessionId := results[sessionId]]
        invariant sessionId !in results ==> results == old(results)
        invariant sessionId in results ==>
                    ReassignAll(old(results)[sessionId], oldTaskId, newTaskIds)
                    == ReassignAll(results[sessionId], oldTaskId, newTaskIds[i..])
        invariant isInitialized == old(isInitialized)
        invariant Valid()
      {
        if sessionId !in results {
          return Fail(KeyNotFound(sessionId));
        }
        ReassignPass(sessionId, oldTaskId, newTaskIds[i]);
        assert newTaskIds[i..][1..] == newTaskIds[i + 1..];
        i := i + 1;
      }
      outcome := Ok(());
    }

    /** Appends each entry's task ids to its result's dependents; fails with
        SessionNotFound, or with ResultNotFound at the first unknown result,
        keeping the appends made before it. */
    method AddTaskDependencies(sessionId: string, deps: seq<(string, seq<string>)>)
      returns (outcome: Outcome<()>)
      requires Valid()
      modifies this
      ensures sessionId !in old(results) ==>
                outcome == Fail(SessionNotFound(sessionId)) && results == old(results)
      ensures sessionId in old(results) ==>
                && results == old(results)[sessionId := AddDependencies(old(results)[sessionId], deps).0]
                && outcome == AddDependencies(old(results)[sessionId], deps).1
      ensures isInitialized == old(isInitialized)
      ensures Valid()
    {
      if sessionId !in results {
        return Fail(SessionNotFound(sessionId));
      }
      var i := 0;
      while i < |deps|
        invariant 0 <= i <= |deps|
        invariant sessionId in results
        invariant results == old(results)[sessionId := results[sessionId]]
        invariant AddDependencies(old(results)[sessionId], deps) == AddDependencies(results[sessionId], deps[i..])
        invariant isInitialized == old(isInitialized)
      {
        var (resultId, taskIds) := deps[i];
        assert deps[i..][0] == deps[i] && deps[i..][1..] == deps[i + 1..];
        var session := results[sessionId];
        if resultId !in session {
          SessionUpdateKeepsWellKeyed(old(results), sessionId, session);
          return Fail(ResultNotFound(resultId));
        }
        var result := session[resultId];
        results := results[sessionId := session[resultId := result.(dependentTasks := result.dependentTasks + taskIds)]];
        i := i + 1;
      }
      SessionUpdateKeepsWellKeyed(old(results), sessionId, results[sessionId]);
      outcome := Ok(());
    }

    /** Removes one result, leaving the rest of its session as it was. */
    method DeleteResult(sessionId: string, resultId: string) returns (outcome: Outcome<()>)
      requires Valid()
      modifies this
      ensures sessionId !in old(results) ==>
                outcome == Fail(SessionNotFound(sessionId)) && results == old(results)
      ensures sessionId in old(results) && resultId !in old(results)[sessionId] ==>
                outcome == Fail(ResultNotFound(resultId)) && results == old(results)
      ensures sessionId in old(results) && resultId in old(results)[sessionId] ==>
                && outcome == Ok(())
                && results == old(results)[sessionId := old(results)[sessionId] - {resultId}]
      ensures isInitialized == old(isInitialized)
      ensures Valid()
    {
      if sessionId !in results {
        return Fail(SessionNotFound(sessionId));
      }
      if resultId !in results[sessionId] {
        return Fail(ResultNotFound(resultId));
      }
      results := results[sessionId := results[sessionId] - {resultId}];
      outcome := Ok(());
    }

    /** Empties a session; the session itself stays known. */
    method DeleteResults(sessionId: string) returns (outcome: Outcome<()>)
      requires Valid()
      modifies this
      ensures sessionId !in old(results) ==>
                outcome == Fail(SessionNotFound(sessionId)) && results == old(results)
      ensures sessionId in old(results) ==>
                outcome == Ok(()) && results == old(results)[sessionId := map[]]
      ensures isInitialized == old(isInitialized)
      ensures Valid()
    {
      if sessionId !in results {
        return Fail(SessionNotFound(sessionId));
      }
      results := results[sessionId := map[]];
      outcome := Ok(());
    }

    /** Gives each named result the requested owner; fails with
        SessionNotFound, or with ResultNotFound at the first unknown result,
        keeping the updates made before it. */
    method SetTaskOwnership(sessionId: string, requests: seq<(string, string)>) returns (outcome: Outcome<()>)
      requires Valid()
      modifies this
      ensures sessionId !in old(results) ==>
                outcome == Fail(SessionNotFound(sessionId)) && results == old(results)
      ensures sessionId in old(results) ==>
                && results == old(results)[sessionId := SetOwners(old(results)[sessionId], requests).0]
                && outcome == SetOwners(old(results)[sessionId], requests).1
      ensures isInitialized == old(isInitialized)
      ensures Valid()
    {
      if sessionId !in results {
        return Fail(SessionNotFound(sessionId));
      }
      var i := 0;
      while i < |requests|
        invariant 0 <= i <= |requests|
        invariant sessionId in results
        invariant results == old(results)[sessionId := results[sessionId]]
        invariant SetOwners(old(results)[sessionId], requests) == SetOwners(results[sessionId], requests[i..])
        invariant isInitialized == old(isInitialized)
      {
        var (resultId, taskId) := requests[i];
        assert requests[i..][0] == requests[i] && requests[i..][1..] == requests[i + 1..];
        var session := results[sessionId];
        if resultId !in session {
          SessionUpdateKeepsWellKeyed(old(results), sessionId, session);
          return Fail(ResultNotFound(resultId));
        }
        var result := session[resultId];
        results := results[sessionId := session[resultId := result.(ownerTaskId := taskId)]];
        i := i + 1;
      }
      SessionUpdateKeepsWellKeyed(old(results), sessionId, results[sessionId]);
      outcome := Ok(());
    }

    /** Applies the updates to one result and returns it as it was before. */
    method UpdateOneResult(sessionId: string, resultId: string, us: seq<ResultField>)
      returns (outcome: Outcome<Result>)
      requires Valid()
      modifies this
      ensures sessionId !in old(results) ==>
                outcome == Fail(SessionNotFound(sessionId)) && results == old(results)
      ensures sessionId in old(results) && resultId !in old(results)[sessionId] ==>
                outcome == Fail(ResultNotFound(resultId)) && results == old(results)
      ensures sessionId in old(results) && resultId in old(results)[sessionId] ==>
                var previous := old(results)[sessionId][resultId];
                && outcome == Ok(previous)
                && results == old(results)[sessionId := old(results)[sessionId][resultId := ApplyAll(previous, us)]]
      ensures isInitialized == old(isInitialized)
      ensures Valid()
    {
      if sessionId !in results {
        return Fail(SessionNotFound(sessionId));
      }
      var session := results[sessionId];
      if resultId !in session {
        return Fail(ResultNotFound(resultId));
      }
      var result := session[resultId];
      results := results[sessionId := session[resultId := ApplyAll(result, us)]];
      outcome := Ok(result);
    }

    /** Applies the updates to the results of one session that the filter
        selects; `hits` are those results, and n counts them. */
    method UpdateSessionWhere(sessionId: string, filter: Result -> bool, us: seq<ResultField>)
      returns (n: int, ghost hits: set<Result>)
      requires sessionId in results
      requires forall id :: id in results[sessionId] ==> results[sessionId][id].resultId == id
      modifies this
      ensures results == old(results)[sessionId := UpdatedSession(old(results)[sessionId], filter, us)]
      ensures forall r :: r in hits <==>
                r.resultId in old(results)[sessionId] && old(results)[sessionId][r.resultId] == r && filter(r)
      ensures n == |hits|
      ensures isInitialized == old(isInitialized)
    {
      var snapshot := results[sessionId];
      // the session's own dictionary, updated entry by entry
      var session := snapshot;
      var pending := set id | id in snapshot && filter(snapshot[id]);
      ghost var matched := pending;
      n, hits := 0, {};
      while pending != {}
        invariant pending <= matched
        invariant session.Keys == snapshot.Keys
        invariant forall id :: id in snapshot ==>
                    session[id] == if id in matched && id !in pending then ApplyAll(snapshot[id], us) else snapshot[id]
        invariant forall r :: r in hits <==> r.resultId in matched && r.resultId !in pending && snapshot[r.resultId] == r
        invariant n == |hits|
        decreases pending
      {
        var id :| id in pending;
        session := session[id := ApplyAll(session[id], us)];
        hits := hits + {snapshot[id]};
        n := n + 1;
        pending := pending - {id};
      }
      assert session == UpdatedSession(snapshot, filter, us);
      results := results[sessionId := session];
    }

    /** Applies the updates to every stored result the filter selects and
        returns how many there were. */
    method UpdateManyResults(filter: Result -> bool, us: seq<ResultField>) returns (count: int)
      requires Valid()
      modifies this
      ensures results == UpdatedWhere(old(results), filter, us)
      ensures count == |Selected(old(results), filter)|
      ensures isInitialized == old(isInitialized)
      ensures Valid()
    {
      count := 0;
      ghost var seen: set<Result> := {};
      var todo := results.Keys;
      while todo != {}
        invariant todo <= old(results).Keys
        invariant results.Keys == old(results).Keys
        invariant forall s :: s in old(results) ==>
                    results[s] == if s in todo then old(results)[s] else UpdatedSession(old(results)[s], filter, us)
        invariant forall r :: r in seen <==> IsStored(old(results), r) && filter(r) && r.sessionId !in todo
        invariant count == |seen|
        invariant isInitialized == old(isInitialized)
        decreases todo
      {
        var s :| s in todo;
        var n;
        ghost var hits;
        n, hits := UpdateSessionWhere(s, filter, us);
        assert forall r :: r in hits <==> IsStored(old(results), r) && filter(r) && r.sessionId == s;
        assert seen * hits == {};
        seen := seen + hits;
        count := count + n;
        todo := todo - {s};
      }
      assert results == UpdatedWhere(old(results), filter, us);
      UpdatedWhereKeepsWellKeyed(old(results), filter, us);
      forall r ensures r in seen <==> r in Selected(old(results), filter) {
        SelectedIff(old(results), filter, r);
      }
      assert seen == Selected(old(results), filter);
    }

    /** Every stored result once, in some order. */
    method Snapshot() returns (all: seq<Result>)
      requires Valid()
      ensures NoDuplicates(all)
      ensures forall r :: r in all <==> IsStored(results, r)
    {
      all := [];
      var todo := results.Keys;
      while todo != {}
        invariant todo <= results.Keys
        invariant NoDuplicates(all)
        invariant forall r :: r in all <==> IsStored(results, r) && r.sessionId !in todo
        decreases todo
      {
        var s :| s in todo;
        var ids := results[s].Keys;
        while ids != {}
          invariant ids <= results[s].Keys
          invariant NoDuplicates(all)
          invariant forall r :: r in all <==>
                      IsStored(results, r) && (r.sessionId !in todo || (r.sessionId == s && r.resultId !in ids))
          decreases ids
        {
          var id :| id in ids;
          var r := results[s][id];
          assert r !in all;
          assert forall x :: multiset(all + [r])[x] == multiset(all)[x] + if x == r then 1 else 0;
          all := all + [r];
          ids := ids - {id};
        }
        todo := todo - {s};
      }
    }

    /** One page of the results the filter selects, in the order of `key`,
        and the number of selected results. */
    method ListResults(filter: Result -> bool, key: Result -> int, ascending: bool, page: int, pageSize: int)
      returns (items: seq<Result>, totalCount: int)
      requires Valid()
      ensures totalCount == |Selected(results, filter)|
      ensures exists ordered :: IsListing(ordered, Selected(results, filter), key, ascending)
                                && items == Page(ordered, page, pageSize)
      ensures |items| <= totalCount && (pageSize <= 0 ==> items == []) && |items| <= if pageSize < 0 then 0 else pageSize
    {
      var all := Snapshot();
      var filtered := Filter(all, filter);
      var ordered := SortBy(filtered, key, ascending);
      items := Page(ordered, page, pageSize);
      totalCount := |ordered|;
      assert NoDuplicates(ordered) by {
        forall x ensures multiset(ordered)[x] <= 1 {
          assert multiset(ordered)[x] == multiset(filtered)[x];
        }
      }
      forall r ensures r in ordered <==> r in Selected(results, filter) {
        SelectedIff(results, filter, r);
        assert r in ordered <==> multiset(ordered)[r] > 0;
        assert multiset(ordered)[r] == multiset(filtered)[r];
      }
      assert IsListing(ordered, Selected(results, filter), key, ascending);
      NoDuplicatesCardinality(ordered);
      assert (set x | x in ordered) == Selected(results, filter);
    }

    method Init()
      modifies this
      ensures isInitialized && results == old(results)
    {
      isInitialized := true;
    }

    /** Healthy exactly once Init has run. */
    method Check() returns (h: Health)
      ensures h == Healthy <==> isInitialized
    {
      h := if isInitialized then Healthy else Unhealthy;
    }
  }
}
