/** Data shapes shared by the two endpoints and the widget (src/types/index.ts). */
module Types {
  import opened Wrappers

  /** Body of a successful GET /api/stats answer. */
  datatype StatsResult = StatsResult(here: int, now: int, domain: string, path: string)

  /** Body of POST /api/track; every field may be absent. */
  datatype TrackingRequest = TrackingRequest(
    domain: Option<string>,
    path: Option<string>,
    userId: Option<string>,
    sessionId: Option<string>)

  /** One row of the page_events table. */
  datatype PageEvent = PageEvent(
    id: string,
    domain: string,
    path: string,
    userId: string,
    sessionId: string,
    userAgent: string,
    timestamp: int)

  /** JSON bodies the controllers answer with. */
  datatype Body =
    | Stats(result: StatsResult)
    | Tracked(success: bool, eventId: string)
    | Error(message: string)
    | ErrorDetails(message: string, details: string, domain: string, path: string)

  datatype Response = Response(status: int, body: Body)
}
