/**
 * The solution REST endpoints: the login check on create, the author check
 * on update and delete, and the status each outcome maps to.
 */
module SolutionController {
  import opened Wrappers
  import opened RoomEntity
  import opened SolutionService

  const OK: nat := 200
  const BAD_REQUEST: nat := 400
  const FORBIDDEN: nat := 403
  const NOT_FOUND: nat := 404
  /** The stored author id is null, so `getUserId().equals(...)` throws. */
  const SERVER_ERROR: nat := 500

  /** A status and, for a 200 on create, update or accept, the solution shown. */
  datatype Http = Http(status: nat, body: Option<Solution>)

  /** `s == null || s.isEmpty()` */
  predicate MissingOrEmpty(s: Option<string>) {
    s.None? || |s.value| == 0
  }

  /** The request carries the logged-in user's name and id. */
  predicate SignedIn(req: CreateSolutionRequest) {
    !MissingOrEmpty(req.username) && !MissingOrEmpty(req.userId)
  }

  /** `POST /api/solutions`: 400 without a user, otherwise the stored solution. */
  function CreateSolution(store: Store, req: CreateSolutionRequest, newId: SolutionId, now: Instant)
    : (out: Handled<Http, Store>)
    requires newId !in store.solutions
    ensures out.response.status == OK <==> SignedIn(req)
    ensures out.response.status != OK ==> out.response == Http(BAD_REQUEST, None) && out.state == store
    ensures out.response.status == OK ==>
      var created := SolutionService.CreateSolution(store, req, newId, now);
      out.response.body == Some(created.response) && out.state == created.state
  {
    if !SignedIn(req) then Handled(Http(BAD_REQUEST, None), store)
    else
      var created := SolutionService.CreateSolution(store, req, newId, now);
      Handled(Http(OK, Some(created.response)), created.state)
  }

  /** `PUT /api/solutions/{id}`: 404, then the author check, then the edit. */
  function UpdateSolution(store: Store, id: SolutionId, req: CreateSolutionRequest, now: Instant)
    : (out: Handled<Http, Store>)
    ensures out.response.status == NOT_FOUND <==> id !in store.solutions
    ensures out.response.status == SERVER_ERROR <==> id in store.solutions && store.solutions[id].userId.None?
    ensures out.response.status == FORBIDDEN <==>
      id in store.solutions && store.solutions[id].userId.Some? && store.solutions[id].userId != req.userId
    ensures out.response.status == OK <==>
      id in store.solutions && store.solutions[id].userId.Some? && store.solutions[id].userId == req.userId
    ensures out.response.status != OK ==> out.state == store && out.response.body.None?
    ensures out.response.status == OK ==>
      var edited := SolutionService.UpdateSolution(store, id, req, now);
      out.response.body == edited.response && out.state == edited.state
  {
    if id !in store.solutions then Handled(Http(NOT_FOUND, None), store)
    else if store.solutions[id].userId.None? then Handled(Http(SERVER_ERROR, None), store)
    else if store.solutions[id].userId != req.userId then Handled(Http(FORBIDDEN, None), store)
    else
      var edited := SolutionService.UpdateSolution(store, id, req, now);
      Handled(Http(OK, edited.response), edited.state)
  }

  /**
   * `POST /api/solutions/{id}/accept`: 404 or accepted. The caller's
   * `userId` is taken but never checked.
   */
  function MarkAsAccepted(store: Store, id: SolutionId, userId: string, now: Instant)
    : (out: Handled<Http, Store>)
    ensures out.response.status == NOT_FOUND <==> id !in store.solutions
    ensures out.response.status in {OK, NOT_FOUND}
    ensures out.response.status == NOT_FOUND ==> out.state == store
    ensures out.response.status == OK ==>
      var accepted := SolutionService.MarkAsAccepted(store, id, now);
      out.response.body == accepted.response && out.state == accepted.state
  {
    if id !in store.solutions then Handled(Http(NOT_FOUND, None), store)
    else
      var accepted := SolutionService.MarkAsAccepted(store, id, now);
      Handled(Http(OK, accepted.response), accepted.state)
  }

  /** Anyone may accept: the outcome does not depend on who asks. */
  lemma AcceptIgnoresCaller(store: Store, id: SolutionId, alice: string, mallory: string, now: Instant)
    ensures MarkAsAccepted(store, id, alice, now) == MarkAsAccepted(store, id, mallory, now)
  {
  }

  /**
   * `DELETE /api/solutions/{id}`: 404, then the author check, then the
   * deletion. The service reports success for every solution that got past
   * the 404, so the 400 branch cannot be reached.
   */
  function DeleteSolution(store: Store, id: SolutionId, userId: string): (out: Handled<Http, Store>)
    ensures out.response.body.None?
    ensures out.response.status in {OK, FORBIDDEN, NOT_FOUND, SERVER_ERROR}
    ensures out.response.status == NOT_FOUND <==> id !in store.solutions
    ensures out.response.status == SERVER_ERROR <==> id in store.solutions && store.solutions[id].userId.None?
    ensures out.response.status == FORBIDDEN <==>
      id in store.solutions && store.solutions[id].userId.Some? && store.solutions[id].userId != Some(userId)
    ensures out.response.status != OK ==> out.state == store
    ensures out.response.status == OK ==>
      && store.solutions[id].userId == Some(userId)
      && out.state == SolutionService.DeleteSolution(store, id).state
      && id !in out.state.solutions
  {
    if id !in store.solutions then Handled(Http(NOT_FOUND, None), store)
    else if store.solutions[id].userId.None? then Handled(Http(SERVER_ERROR, None), store)
    else if store.solutions[id].userId != Some(userId) then Handled(Http(FORBIDDEN, None), store)
    else
      var deleted := SolutionService.DeleteSolution(store, id);
      if deleted.response then Handled(Http(OK, None), deleted.state)
      else Handled(Http(BAD_REQUEST, None), deleted.state)
  }

  /** Every stored solution has a non-empty author id. */
  ghost predicate Authored(store: Store) {
    forall id :: id in store.solutions ==> !MissingOrEmpty(store.solutions[id].userId)
  }

  /**
   * Through these endpoints every solution gets an author id, so the
   * null-author failure never happens: every endpoint keeps `Authored`, and
   * on an `Authored` store update and delete answer only 200, 403 or 404.
   */
  lemma EndpointsKeepAuthored(store: Store, id: SolutionId, req: CreateSolutionRequest, newId: SolutionId,
                              userId: string, now: Instant)
    requires Authored(store)
    ensures newId !in store.solutions ==> Authored(CreateSolution(store, req, newId, now).state)
    ensures Authored(UpdateSolution(store, id, req, now).state)
    ensures Authored(MarkAsAccepted(store, id, userId, now).state)
    ensures Authored(DeleteSolution(store, id, userId).state)
    ensures UpdateSolution(store, id, req, now).response.status != SERVER_ERROR
    ensures DeleteSolution(store, id, userId).response.status != SERVER_ERROR
  {
    if newId !in store.solutions && SignedIn(req) {
      var created := CreateSolution(store, req, newId, now).state;
      forall k | k in created.solutions ensures !MissingOrEmpty(created.solutions[k].userId) {
        if k != newId {
          assert created.solutions[k] == store.solutions[k];
        }
      }
    }
  }

  /**
   * Only the author changes a solution's text or removes it: for anybody
   * else update and delete leave the store as it was.
   */
  lemma OnlyAuthorEdits(store: Store, id: SolutionId, req: CreateSolutionRequest, userId: string, now: Instant)
    requires id in store.solutions
    ensures store.solutions[id].userId != req.userId ==> UpdateSolution(store, id, req, now).state == store
    ensures store.solutions[id].userId != Some(userId) ==> DeleteSolution(store, id, userId).state == store
  {
  }
}
