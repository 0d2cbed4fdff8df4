/**
 * POST /api/track (src/controllers/trackController.ts): the validation
 * chain, then one insert into the append-only page_events table, with
 * generated ids standing in for a missing or empty user_id / session_id.
 */
module TrackController {
  import opened Wrappers
  import opened Types
  import Requests

  const TRACK_FAILED: string := "Failed to track event"

  /**
   * `given || generated`: the client's id when it is truthy, otherwise the
   * id the generator produced; an empty client id is never stored when the
   * generator yields a non-empty one.
   */
  function IdOrGenerated(given: Option<string>, generated: string): (id: string)
    ensures Requests.Present(given) ==> id == given.value
    ensures !Requests.Present(given) ==> id == generated
    ensures generated != "" ==> id != ""
  {
    if Requests.Present(given) then given.value else generated
  }

  /** The outcome of `prisma.pageEvent.create`: the new row's id, or the error it threw. */
  datatype InsertOutcome = Inserted(eventId: string) | InsertFailed(message: string)

  /**
   * The page_events table as the ingestion endpoint sees it: rows are only
   * ever appended.
   */
  class EventStore {
    var events: seq<PageEvent>

    /** The table holding the rows already written. */
    constructor (rows: seq<PageEvent>)
      ensures events == rows
    {
      events := rows;
    }

    /** Appends one row. */
    method Append(e: PageEvent)
      modifies this
      ensures events == old(events) + [e]
    {
      events := events + [e];
    }
  }

  /**
   * The row an accepted request inserts at time `t`. `genUser` and
   * `genSession` are the values uuidv4() yields when called; `userAgent` is
   * the User-Agent header, stored as "" when absent.
   */
  function NewEvent(req: TrackingRequest, eventId: string, genUser: string, genSession: string,
                    userAgent: Option<string>, t: int): (e: PageEvent)
    requires Requests.Present(req.domain) && Requests.Present(req.path)
    ensures e.id == eventId && e.domain == req.domain.value && e.path == req.path.value
    ensures e.userId == IdOrGenerated(req.userId, genUser)
    ensures e.sessionId == IdOrGenerated(req.sessionId, genSession)
    ensures e.timestamp == t
  {
    PageEvent(eventId, req.domain.value, req.path.value,
              IdOrGenerated(req.userId, genUser), IdOrGenerated(req.sessionId, genSession),
              if userAgent.Some? then userAgent.value else "", t)
  }

  /**
   * `trackController` handling one request at time `t`: a refused request
   * and a failed insert leave the store as it was; an accepted request
   * appends exactly one row and answers with that row's id.
   */
  method HandleTrack(store: EventStore, req: TrackingRequest, userAgent: Option<string>,
                     allowed: seq<string>, genUser: string, genSession: string,
                     insert: InsertOutcome, t: int)
      returns (resp: Response)
    modifies store
    ensures Requests.Validate(req.domain, req.path, allowed).Some? ==>
      && resp == Requests.RejectionResponse(Requests.Validate(req.domain, req.path, allowed).value)
      && store.events == old(store.events)
    ensures Requests.Validate(req.domain, req.path, allowed).None? && insert.InsertFailed? ==>
      && resp == Response(500, Error(TRACK_FAILED))
      && store.events == old(store.events)
    ensures Requests.Validate(req.domain, req.path, allowed).None? && insert.Inserted? ==>
      && resp == Response(200, Tracked(true, insert.eventId))
      && store.events == old(store.events) + [NewEvent(req, insert.eventId, genUser, genSession, userAgent, t)]
  {
    var rejection := Requests.Validate(req.domain, req.path, allowed);
    if rejection.Some? {
      return Requests.RejectionResponse(rejection.value);
    }
    match insert
    case InsertFailed(_) =>
      resp := Response(500, Error(TRACK_FAILED));
    case Inserted(eventId) =>
      store.Append(NewEvent(req, eventId, genUser, genSession, userAgent, t));
      resp := Response(200, Tracked(true, eventId));
  }
}
