/**
 * The seam to the remote identity service. The network call itself is not
 * modelled: the service is an arbitrary function from the request body it is
 * sent to the answer it gives, and the client records every request it sends.
 */
module Identity {
  import opened Wrappers

  /** The JSON body posted to the service's `/authentication` endpoint. */
  datatype AuthRequest = AuthRequest(strategy: string, username: string, password: string, privateDevice: bool)

  /** What the gateway reads of an answer: `data.account.userId` and `data.accessToken`. */
  datatype Grant = Grant(userId: string, accessToken: string)

  /** The service's answer to one request; `None` is an answer without an access token or account. */
  type Service = AuthRequest -> Option<Grant>

  /** The body sent for a login with a name and password. */
  function LocalLogin(name: string, password: string): (q: AuthRequest)
    ensures q.strategy == "local" && q.privateDevice
    ensures q.username == name && q.password == password
  {
    AuthRequest("local", name, password, true)
  }

  /** JavaScript's `if (data.accessToken)`: the token is present and is not the empty string. */
  predicate HasAccessToken(data: Option<Grant>): (b: bool)
    ensures data.None? ==> !b
    ensures data.Some? && data.value.accessToken == "" ==> !b
    ensures data.Some? && data.value.accessToken != "" ==> b
  {
    data.Some? && data.value.accessToken != ""
  }

  /** The `api` client, with a record of what it has sent. */
  class IdentityClient {
    const respond: Service
    var sent: seq<AuthRequest>

    constructor (respond: Service)
      ensures this.respond == respond && sent == []
    {
      this.respond := respond;
      sent := [];
    }

    /** `api(...).post('/authentication', q)`, yielding `res.data` */
    method Post(q: AuthRequest) returns (data: Option<Grant>)
      modifies this
      ensures sent == old(sent) + [q]
      ensures data == respond(q)
    {
      sent := sent + [q];
      data := respond(q);
    }
  }
}
