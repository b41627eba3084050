/**
 * The order in which the Express application handles one request: the
 * correlator stamps it, the "Calling ..." line logs its number, the shim
 * routes run, and only a request none of them answered gets the audit
 * wrapper installed before it reaches the WebDAV mounts.
 */
module Pipeline {
  import opened Wrappers
  import opened Correlator
  import opened Shim
  import opened Audit

  /** Where a request ended up. */
  datatype Outcome = AnsweredByShim(payload: Payload) | PassedToMounts(capture: AuditCapture)

  /** The application with its module-level request counter. */
  class App {
    const labeler: RequestLabeler

    /** At start-up no request has been counted. */
    constructor ()
      ensures fresh(labeler) && labeler.Valid() && labeler.reqCounter == 0
    {
      labeler := new RequestLabeler();
    }

    /**
     * Handles one request and returns the number its "Calling ..." log line
     * prints. In a sequential run that number is the request's own id; a
     * request a shim route answers never reaches the audit wrapper.
     */
    method Handle(req: Request) returns (calling: int, outcome: Outcome)
      requires labeler.Valid()
      modifies labeler, req
      ensures labeler.Valid()
      ensures labeler.reqCounter == old(labeler.reqCounter) + 1
      ensures req.counter == Some(old(labeler.reqCounter))
      ensures calling == req.counter.value
      ensures req.url == old(req.url)
      ensures match Dispatch(Routes, req.httpMethod, req.url)
              case Answered(p, _) => outcome == AnsweredByShim(p)
              case FellThrough =>
                && outcome.PassedToMounts?
                && fresh(outcome.capture)
                && outcome.capture.Valid()
                && outcome.capture.number == req.counter
                && outcome.capture.httpMethod == req.httpMethod
                && outcome.capture.originalUri == req.originalUrl
                && outcome.capture.chunks == [] && outcome.capture.events == []
    {
      labeler.Label(req);
      calling := labeler.CallingNumber();
      var d := Dispatch(Routes, req.httpMethod, req.url);
      if d.Answered? {
        outcome := AnsweredByShim(d.payload);
      } else {
        var capture := new AuditCapture(req.counter, req.httpMethod, req.originalUrl);
        outcome := PassedToMounts(capture);
      }
    }
  }
}
