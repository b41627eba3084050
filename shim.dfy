/**
 * The compatibility shim: the ordered Express routes registered before the
 * WebDAV mounts, which answer the discovery endpoints that ownCloud and
 * Nextcloud clients probe, or pass the request on with `next()`.
 */
module Shim {

  /** The status record sent for `status.php`. */
  datatype StatusRecord = StatusRecord(
    installed: bool,
    maintenance: bool,
    needsDbUpgrade: bool,
    version: string,
    versionstring: string,
    edition: string,
    productname: string)

  /** A response body; the capabilities and config documents are configuration, not modelled further. */
  datatype Payload = Status(status: StatusRecord) | CapabilitiesDocument | ConfigDocument | Text(body: string)

  /** A route handler either sends a payload or calls `next()`. */
  datatype Handler = Respond(payload: Payload) | Next

  datatype Route = Route(verb: string, path: string, handler: Handler)

  const ServerStatus: StatusRecord :=
    StatusRecord(true, false, false, "10.0.3.3", "10.0.3", "Community", "HPI Schul-Cloud")

  const NavigationPath: string := "/ocs/v2.php/core/navigation/apps"
  const UserPath: string := "/ocs/v1.php/cloud/user"
  const AvatarPath: string := "/remote.php/dav/avatars/lehrer@schul-cloud.org/128.png"
  const WebdavRootPath: string := "/remote.php/webdav//"

  /** The routes in registration order. */
  const Routes: seq<Route> := [
    Route("GET", "/nextcloud/status.php", Respond(Status(ServerStatus))),
    Route("GET", "/status.php", Respond(Status(ServerStatus))),
    Route("GET", "/ocs/v1.php/cloud/capabilities", Respond(CapabilitiesDocument)),
    Route("GET", "/ocs/v2.php/cloud/capabilities", Respond(CapabilitiesDocument)),
    Route("GET", NavigationPath, Next),
    Route("GET", "/ocs/v1.php/config", Respond(ConfigDocument)),
    Route("GET", UserPath, Next),
    Route("GET", AvatarPath, Next),
    Route("HEAD", WebdavRootPath, Respond(Text("")))
  ]

  /** The route matches the request and its handler sends a response. */
  predicate Answers(r: Route, verb: string, path: string) {
    r.verb == verb && r.path == path && r.handler.Respond?
  }

  /** Either the route at `index` answered with `payload`, or every route called `next()` or did not match. */
  datatype Dispatched = Answered(payload: Payload, index: nat) | FellThrough

  /** Express dispatch from route `i` on: the first route that matches and responds ends it. */
  function DispatchFrom(routes: seq<Route>, verb: string, path: string, i: nat): (d: Dispatched)
    requires i <= |routes|
    ensures d.Answered? ==>
              && i <= d.index < |routes|
              && Answers(routes[d.index], verb, path)
              && routes[d.index].handler.payload == d.payload
              && forall j :: i <= j < d.index ==> !Answers(routes[j], verb, path)
    ensures d.FellThrough? <==> forall j :: i <= j < |routes| ==> !Answers(routes[j], verb, path)
    decreases |routes| - i
  {
    if i == |routes| then FellThrough
    else if Answers(routes[i], verb, path) then Answered(routes[i].handler.payload, i)
    else DispatchFrom(routes, verb, path, i + 1)
  }

  /** The Express router over the table: the first route that matches and responds answers. */
  function Dispatch(routes: seq<Route>, verb: string, path: string): (d: Dispatched)
    ensures d.Answered? ==>
              && d.index < |routes|
              && Answers(routes[d.index], verb, path)
              && routes[d.index].handler.payload == d.payload
              && forall j :: 0 <= j < d.index ==> !Answers(routes[j], verb, path)
    ensures d.FellThrough? <==> forall j :: 0 <= j < |routes| ==> !Answers(routes[j], verb, path)
  {
    DispatchFrom(routes, verb, path, 0)
  }

  /**
   * No two routes share a method and path, so each request matches at most
   * one route and the registration order never decides between two of them.
   */
  lemma RoutesDistinct()
    ensures forall i, j :: 0 <= i < j < |Routes| ==> (Routes[i].verb, Routes[i].path) != (Routes[j].verb, Routes[j].path)
  {
  }

  /** Both status paths answer with the same fixed status record. */
  lemma StatusEndpoints()
    ensures Dispatch(Routes, "GET", "/nextcloud/status.php") ==
            Answered(Status(StatusRecord(true, false, false, "10.0.3.3", "10.0.3", "Community", "HPI Schul-Cloud")), 0)
    ensures Dispatch(Routes, "GET", "/status.php") == Answered(Status(ServerStatus), 1)
  {
    assert Answers(Routes[0], "GET", "/nextcloud/status.php");
    assert Answers(Routes[1], "GET", "/status.php");
  }

  /** Both capabilities paths answer with the capabilities document; the config path with the config document. */
  lemma DocumentEndpoints()
    ensures Dispatch(Routes, "GET", "/ocs/v1.php/cloud/capabilities") == Answered(CapabilitiesDocument, 2)
    ensures Dispatch(Routes, "GET", "/ocs/v2.php/cloud/capabilities") == Answered(CapabilitiesDocument, 3)
    ensures Dispatch(Routes, "GET", "/ocs/v1.php/config") == Answered(ConfigDocument, 5)
  {
    assert Answers(Routes[2], "GET", "/ocs/v1.php/cloud/capabilities");
    assert Answers(Routes[3], "GET", "/ocs/v2.php/cloud/capabilities");
    assert Answers(Routes[5], "GET", "/ocs/v1.php/config");
  }

  /** `HEAD` on the WebDAV root with its doubled slash is answered at once with an empty body. */
  lemma WebdavRootProbe()
    ensures Dispatch(Routes, "HEAD", WebdavRootPath) == Answered(Text(""), 8)
  {
    assert Answers(Routes[8], "HEAD", WebdavRootPath);
  }

  /** The navigation, user and avatar routes only call `next()`: the request falls through. */
  lemma PassThroughEndpoints()
    ensures Dispatch(Routes, "GET", NavigationPath) == FellThrough
    ensures Dispatch(Routes, "GET", UserPath) == FellThrough
    ensures Dispatch(Routes, "GET", AvatarPath) == FellThrough
  {
  }

  /** The (method, path) pairs the shim answers itself. */
  const AnsweredEndpoints: set<(string, string)> := {
    ("GET", "/nextcloud/status.php"),
    ("GET", "/status.php"),
    ("GET", "/ocs/v1.php/cloud/capabilities"),
    ("GET", "/ocs/v2.php/cloud/capabilities"),
    ("GET", "/ocs/v1.php/config"),
    ("HEAD", WebdavRootPath)
  }

  /** The shim answers a request exactly when its method and path are one of the answered endpoints. */
  lemma AnsweredExactly(verb: string, path: string)
    ensures Dispatch(Routes, verb, path).Answered? <==> (verb, path) in AnsweredEndpoints
  {
    var d := Dispatch(Routes, verb, path);
    if d.Answered? {
      assert Routes[d.index].handler.Respond?;
      assert d.index in {0, 1, 2, 3, 5, 8};
    } else {
      forall j | 0 <= j < |Routes| ensures !Answers(Routes[j], verb, path) { }
      assert !Answers(Routes[0], verb, path) && !Answers(Routes[1], verb, path);
      assert !Answers(Routes[2], verb, path) && !Answers(Routes[3], verb, path);
      assert !Answers(Routes[5], verb, path) && !Answers(Routes[8], verb, path);
    }
  }
}
