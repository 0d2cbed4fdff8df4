/**
 * The two endpoints together: rows written by POST /api/track are what the
 * "here"/"now" aggregate of GET /api/stats counts.
 */
module Presence {
  import opened Wrappers
  import opened Types
  import Constants
  import TrackController
  import StatsController
  import Requests

  /**
   * Two different visitors tracked on one page at `t0` are both "here" and
   * both "now" until the activity window has fully passed (the window start
   * is inclusive); one millisecond later both are still "here" and nobody
   * is "now".
   */
  lemma TwoVisitorsThenQuiet(domain: string, path: string, u1: string, u2: string, t0: int)
    requires domain != "" && path != "" && u1 != "" && u2 != "" && u1 != u2
    ensures var e1 := TrackController.NewEvent(TrackingRequest(Some(domain), Some(path), Some(u1), None), "1", "g1", "s1", None, t0);
            var e2 := TrackController.NewEvent(TrackingRequest(Some(domain), Some(path), Some(u2), None), "2", "g2", "s2", None, t0);
      && StatsController.Aggregate([e1, e2], domain, path, t0) == StatsResult(2, 2, domain, path)
      && StatsController.Aggregate([e1, e2], domain, path, t0 + Constants.ACTIVITY_THRESHOLD_MS) == StatsResult(2, 2, domain, path)
      && StatsController.Aggregate([e1, e2], domain, path, t0 + Constants.ACTIVITY_THRESHOLD_MS + 1) == StatsResult(2, 0, domain, path)
  {
    var e1 := TrackController.NewEvent(TrackingRequest(Some(domain), Some(path), Some(u1), None), "1", "g1", "s1", None, t0);
    var e2 := TrackController.NewEvent(TrackingRequest(Some(domain), Some(path), Some(u2), None), "2", "g2", "s2", None, t0);
    var events := [e1, e2];
    assert e1.userId == u1 && e2.userId == u2;
    assert StatsController.PageUsers(events, domain, path) == {u1, u2};
    assert StatsController.ActiveUsers(events, domain, path, StatsController.WindowStart(t0)) == {u1, u2};
    assert StatsController.ActiveUsers(events, domain, path,
      StatsController.WindowStart(t0 + Constants.ACTIVITY_THRESHOLD_MS)) == {u1, u2};
    assert StatsController.ActiveUsers(events, domain, path,
      StatsController.WindowStart(t0 + Constants.ACTIVITY_THRESHOLD_MS + 1)) == {};
  }

  /**
   * A track request accepted at `t` from a user not yet seen on the page
   * raises that page's `here` by one and its `now` (at `t`) by one.
   */
  lemma AcceptedVisitCounts(events: seq<PageEvent>, req: TrackingRequest, eventId: string,
                            genUser: string, genSession: string, userAgent: Option<string>, t: int)
    requires Requests.Present(req.domain) && Requests.Present(req.path)
    requires TrackController.IdOrGenerated(req.userId, genUser)
      !in StatsController.PageUsers(events, req.domain.value, req.path.value)
    ensures var e := TrackController.NewEvent(req, eventId, genUser, genSession, userAgent, t);
            var before := StatsController.Aggregate(events, req.domain.value, req.path.value, t);
            var after := StatsController.Aggregate(events + [e], req.domain.value, req.path.value, t);
      after.here == before.here + 1 && after.now == before.now + 1
  {
    var e := TrackController.NewEvent(req, eventId, genUser, genSession, userAgent, t);
    StatsController.NewVisitorCounted(events, e, t);
  }
}
