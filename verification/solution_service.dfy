/**
 * The solutions store: the solution documents by id, and for each problem
 * the list of its solutions' ids.
 */
module SolutionService {
  import opened Wrappers
  import opened Seqs
  import opened RoomEntity

  type SolutionId = string
  type ProblemId = string

  datatype Solution = Solution(
    id: SolutionId,
    problemId: ProblemId,
    username: Option<string>,
    userId: Option<string>,
    title: Option<string>,
    content: Option<string>,
    isAccepted: bool,
    createdAt: Instant,
    updatedAt: Instant)

  datatype CreateSolutionRequest = CreateSolutionRequest(
    problemId: ProblemId,
    username: Option<string>,
    userId: Option<string>,
    title: Option<string>,
    content: Option<string>)

  /**
   * `solutions` is the solution collection; `problems` maps each stored
   * problem to the ids listed under it (the problem documents' other fields
   * play no part here).
   */
  datatype Store = Store(solutions: map<SolutionId, Solution>, problems: map<ProblemId, seq<SolutionId>>)

  /**
   * Each solution is stored under its id; each problem lists distinct ids of
   * stored solutions of that problem, and every stored solution of a stored
   * problem is listed under it.
   */
  ghost predicate Valid(store: Store) {
    && (forall id :: id in store.solutions ==> store.solutions[id].id == id)
    && (forall p :: p in store.problems ==> NoDup(store.problems[p]))
    && (forall p, id :: p in store.problems && id in store.problems[p] ==>
          id in store.solutions && store.solutions[id].problemId == p)
    && (forall id :: id in store.solutions && store.solutions[id].problemId in store.problems ==>
          id in store.problems[store.solutions[id].problemId])
  }

  /** `getSolutionById(solutionId)`. */
  function GetSolutionById(store: Store, id: SolutionId): (r: Option<Solution>)
    ensures r.Some? <==> id in store.solutions
    ensures r.Some? ==> r.value == store.solutions[id]
  {
    if id in store.solutions then Some(store.solutions[id]) else None
  }

  /**
   * `createSolution(request)`: stores a new, not yet accepted solution under
   * the fresh id the database assigns, and lists it under its problem if
   * that problem exists.
   */
  function CreateSolution(store: Store, req: CreateSolutionRequest, newId: SolutionId, now: Instant)
    : (out: Handled<Solution, Store>)
    requires newId !in store.solutions
    ensures var s := out.response;
      && s.id == newId && s.problemId == req.problemId && s.username == req.username
      && s.userId == req.userId && s.title == req.title && s.content == req.content
      && !s.isAccepted
    ensures forall id :: id in out.state.solutions <==> id in store.solutions || id == newId
    ensures out.state.solutions[newId] == out.response
    ensures forall id :: id in store.solutions ==> out.state.solutions[id] == store.solutions[id]
    ensures forall p :: p in out.state.problems <==> p in store.problems
    ensures req.problemId in store.problems ==>
      out.state.problems[req.problemId] == store.problems[req.problemId] + [newId]
    ensures forall p :: p in store.problems && p != req.problemId ==> out.state.problems[p] == store.problems[p]
  {
    var s := Solution(newId, req.problemId, req.username, req.userId, req.title, req.content, false, now, now);
    var problems := if req.problemId in store.problems
      then store.problems[req.problemId := store.problems[req.problemId] + [newId]]
      else store.problems;
    Handled(s, Store(store.solutions[newId := s], problems))
  }

  /** Creating a solution keeps the store consistent. */
  lemma CreateKeepsValid(store: Store, req: CreateSolutionRequest, newId: SolutionId, now: Instant)
    requires Valid(store) && newId !in store.solutions
    ensures Valid(CreateSolution(store, req, newId, now).state)
  {
    var p := req.problemId;
    if p in store.problems {
      AppendFreshNoDup(store.problems[p], newId);
    }
  }

  /** `updateSolution(solutionId, request)`: null when absent. */
  function UpdateSolution(store: Store, id: SolutionId, req: CreateSolutionRequest, now: Instant)
    : (out: Handled<Option<Solution>, Store>)
    ensures out.response.Some? <==> id in store.solutions
    ensures id !in store.solutions ==> out.state == store
    ensures id in store.solutions ==>
      var old_ := store.solutions[id];
      var new_ := out.response.value;
      && new_.title == req.title && new_.content == req.content && new_.updatedAt == now
      && new_.(title := old_.title, content := old_.content, updatedAt := old_.updatedAt) == old_
      && out.state == store.(solutions := store.solutions[id := new_])
  {
    if id in store.solutions then
      var s := store.solutions[id].(title := req.title, content := req.content, updatedAt := now);
      Handled(Some(s), store.(solutions := store.solutions[id := s]))
    else
      Handled(None, store)
  }

  /** `markAsAccepted(solutionId)`: null when absent. */
  function MarkAsAccepted(store: Store, id: SolutionId, now: Instant): (out: Handled<Option<Solution>, Store>)
    ensures out.response.Some? <==> id in store.solutions
    ensures id !in store.solutions ==> out.state == store
    ensures id in store.solutions ==>
      var old_ := store.solutions[id];
      var new_ := out.response.value;
      && new_.isAccepted && new_.updatedAt == now
      && new_.(isAccepted := old_.isAccepted, updatedAt := old_.updatedAt) == old_
      && out.state == store.(solutions := store.solutions[id := new_])
  {
    if id in store.solutions then
      var s := store.solutions[id].(isAccepted := true, updatedAt := now);
      Handled(Some(s), store.(solutions := store.solutions[id := s]))
    else
      Handled(None, store)
  }

  /** Accepting twice is accepting once, apart from the later timestamp. */
  lemma AcceptIdempotent(store: Store, id: SolutionId, t1: Instant, t2: Instant)
    ensures MarkAsAccepted(MarkAsAccepted(store, id, t1).state, id, t2) == MarkAsAccepted(store, id, t2)
  {
    if id in store.solutions {
      var once := MarkAsAccepted(store, id, t1).state;
      assert once.solutions[id := once.solutions[id].(isAccepted := true, updatedAt := t2)]
          == store.solutions[id := store.solutions[id].(isAccepted := true, updatedAt := t2)];
    }
  }

  /**
   * `deleteSolution(solutionId)`: true iff it existed; the document's own id
   * is first taken off its problem's list (one occurrence, as
   * `List.remove(Object)` does), then the document is deleted. No other
   * problem's list changes.
   */
  function DeleteSolution(store: Store, id: SolutionId): (out: Handled<bool, Store>)
    ensures out.response <==> id in store.solutions
    ensures !out.response ==> out.state == store
    ensures id !in out.state.solutions
    ensures forall k :: k in out.state.solutions <==> k in store.solutions && k != id
    ensures forall k :: k in out.state.solutions ==> out.state.solutions[k] == store.solutions[k]
    ensures forall p :: p in out.state.problems <==> p in store.problems
    ensures id in store.solutions && store.solutions[id].problemId in store.problems ==>
      var p := store.solutions[id].problemId;
      out.state.problems[p] == RemoveFirst(store.problems[p], store.solutions[id].id)
    ensures forall p :: p in store.problems && !(id in store.solutions && p == store.solutions[id].problemId) ==>
      out.state.problems[p] == store.problems[p]
  {
    if id in store.solutions then
      var s := store.solutions[id];
      var p := s.problemId;
      var problems := if p in store.problems then store.problems[p := RemoveFirst(store.problems[p], s.id)]
                      else store.problems;
      Handled(true, Store(store.solutions - {id}, problems))
    else
      Handled(false, store)
  }

  /**
   * Deleting a solution keeps the store consistent, and no problem lists the
   * deleted id any more.
   */
  lemma DeleteKeepsValid(store: Store, id: SolutionId)
    requires Valid(store)
    ensures var out := DeleteSolution(store, id).state;
      && Valid(out)
      && forall p :: p in out.problems ==> id !in out.problems[p]
  {
    if id in store.solutions {
      var p := store.solutions[id].problemId;
      var problems := if p in store.problems then store.problems[p := RemoveFirst(store.problems[p], id)]
                      else store.problems;
      assert DeleteSolution(store, id).state == Store(store.solutions - {id}, problems);
      UnlistKeepsValid(store, id, problems);
    }
  }

  /** Dropping a stored solution and taking its id off its problem's list keeps the store consistent. */
  lemma UnlistKeepsValid(store: Store, id: SolutionId, problems: map<ProblemId, seq<SolutionId>>)
    requires Valid(store) && id in store.solutions
    requires var p := store.solutions[id].problemId;
      problems == if p in store.problems then store.problems[p := RemoveFirst(store.problems[p], id)]
                  else store.problems
    ensures var out := Store(store.solutions - {id}, problems);
      && Valid(out)
      && forall q :: q in out.problems ==> id !in out.problems[q]
  {
    var p := store.solutions[id].problemId;
    var out := Store(store.solutions - {id}, problems);
    if p in store.problems {
      RemoveFirstNoDup(store.problems[p], id);
    }
    forall q | q in out.problems ensures id !in out.problems[q] && NoDup(out.problems[q]) {
      if q != p {
        assert id !in store.problems[q];
      }
    }
    forall q, x | q in out.problems && x in out.problems[q]
      ensures x in out.solutions && out.solutions[x].problemId == q
    {
      assert x in store.problems[q];
    }
  }

  /** Editing or accepting a solution keeps the store consistent. */
  lemma EditKeepsValid(store: Store, id: SolutionId, req: CreateSolutionRequest, now: Instant)
    requires Valid(store)
    ensures Valid(UpdateSolution(store, id, req, now).state)
    ensures Valid(MarkAsAccepted(store, id, now).state)
  {
  }

  /** Creating a solution and deleting it again restores the store exactly. */
  lemma CreateThenDelete(store: Store, req: CreateSolutionRequest, newId: SolutionId, now: Instant)
    requires Valid(store) && newId !in store.solutions
    ensures var created := CreateSolution(store, req, newId, now).state;
      DeleteSolution(created, newId) == Handled(true, store)
  {
    var p := req.problemId;
    var s := Solution(newId, p, req.username, req.userId, req.title, req.content, false, now, now);
    var problems := if p in store.problems then store.problems[p := store.problems[p] + [newId]]
                    else store.problems;
    var created := Store(store.solutions[newId := s], problems);
    assert CreateSolution(store, req, newId, now).state == created;
    var restored := if p in store.problems then problems[p := RemoveFirst(problems[p], newId)] else problems;
    assert DeleteSolution(created, newId) == Handled(true, Store(created.solutions - {newId}, restored));
    assert created.solutions - {newId} == store.solutions;
    UnlistRestores(store.problems, p, newId);
  }

  /** Listing an id under a problem and taking it off again restores the lists. */
  lemma UnlistRestores(problems: map<ProblemId, seq<SolutionId>>, p: ProblemId, id: SolutionId)
    requires p in problems ==> id !in problems[p]
    ensures var listed := if p in problems then problems[p := problems[p] + [id]] else problems;
      (if p in problems then listed[p := RemoveFirst(listed[p], id)] else listed) == problems
  {
    if p in problems {
      RemoveFirstAppended(problems[p], id);
    }
  }

  /** A solution just created is found under its new id, and every other lookup is unchanged. */
  lemma CreateThenGet(store: Store, req: CreateSolutionRequest, newId: SolutionId, now: Instant, other: SolutionId)
    requires newId !in store.solutions && other != newId
    ensures var out := CreateSolution(store, req, newId, now);
      && GetSolutionById(out.state, newId) == Some(out.response)
      && GetSolutionById(out.state, other) == GetSolutionById(store, other)
  {
  }

  /** A deleted solution is no longer found, and every other lookup is unchanged. */
  lemma DeleteThenGet(store: Store, id: SolutionId, other: SolutionId)
    requires other != id
    ensures var out := DeleteSolution(store, id).state;
      && GetSolutionById(out, id).None?
      && GetSolutionById(out, other) == GetSolutionById(store, other)
  {
  }
}
