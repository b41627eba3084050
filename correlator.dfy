/**
 * The request correlator: a process-wide counter that stamps every inbound
 * request with its 0-based sequence number, for joining log lines.
 */
module Correlator {
  import opened Wrappers

  /** The parts of an inbound Express request the gateway reads or writes. */
  class Request {
    const httpMethod: string
    const originalUrl: string
    var url: string
    var counter: Option<nat>

    constructor (httpMethod: string, originalUrl: string)
      ensures this.httpMethod == httpMethod && this.originalUrl == originalUrl
      ensures url == originalUrl && counter == None
    {
      this.httpMethod := httpMethod;
      this.originalUrl := originalUrl;
      url := originalUrl;
      counter := None;
    }
  }

  /** The ids handed out to the first `n` requests of the process. */
  function Labels(n: nat): (ids: seq<nat>)
    ensures |ids| == n
    ensures forall i :: 0 <= i < n ==> ids[i] == i
  {
    if n == 0 then [] else Labels(n - 1) + [n - 1]
  }

  /** Ids handed out from a fresh counter are 0, 1, 2, ..., strictly increasing, hence distinct. */
  lemma LabelsAreSequenceNumbers(n: nat)
    ensures forall i, j :: 0 <= i < j < n ==> Labels(n)[i] < Labels(n)[j]
    ensures forall i, j :: 0 <= i < n && 0 <= j < n && Labels(n)[i] == Labels(n)[j] ==> i == j
  {
  }

  /** `reqLabler` together with the module-level `reqCounter` it advances. */
  class RequestLabeler {
    var reqCounter: nat
    /** The ids handed out so far, in order. */
    ghost var issued: seq<nat>

    ghost predicate Valid()
      reads this
    {
      issued == Labels(reqCounter)
    }

    /** `let reqCounter = 0` */
    constructor ()
      ensures Valid() && reqCounter == 0 && issued == []
    {
      reqCounter := 0;
      issued := [];
    }

    /** Stamps the request with the number of requests seen before it, then counts it. */
    method Label(req: Request)
      requires Valid()
      modifies this, req`counter
      ensures Valid()
      ensures req.counter == Some(old(reqCounter))
      ensures reqCounter == old(reqCounter) + 1
      ensures issued == old(issued) + [old(reqCounter)]
    {
      req.counter := Some(reqCounter);
      reqCounter := reqCounter + 1;
      issued := issued + [req.counter.value];
    }

    /**
     * The number printed in the "Calling ..." log line, `reqCounter-1`: the
     * id of the most recently labelled request, or -1 before the first one.
     */
    function CallingNumber(): (n: int)
      reads this
      requires Valid()
      ensures |issued| > 0 ==> n == issued[|issued| - 1]
      ensures |issued| == 0 <==> n == -1
    {
      reqCounter - 1
    }
  }
}
