# WebDAV gateway core: credential cache and request shims

This project models the stateful core of a small WebDAV gateway written in
TypeScript on Express and `webdav-server`. The core has two parts.

- **The credential cache** (`UserManager`). It is the user manager behind the
  WebDAV server's HTTP basic authentication. It holds a `Map` from login name to
  user. A cached name is checked by exact password comparison. An unseen name
  goes to the remote identity service once, and is cached only if the answer
  carries an access token.
- **The request-handling shims** (`index.ts`). A module-level counter gives each
  request its 0-based number. A "Calling ..." log line prints that number.
  An ordered table of Express routes answers the ownCloud/Nextcloud discovery
  endpoints or passes the request on with `next()`. For requests that get past
  the table, the `logReqRes` wrapper captures every chunk written to the
  response and logs the concatenated body at `end`.

Modules (one per file):

- `Wrappers` (`wrappers.dfy`): `Option`, for `null`/`undefined`.
- `OrderedMaps` (`ordered_maps.dfy`): a JavaScript `Map` with string keys. It
  keeps the insertion order, which `values()` follows.
- `Identity` (`identity.dfy`): the authentication request body and the answer
  fields the gateway reads. The service is an arbitrary function from request
  to answer. `IdentityClient` records every request it sends.
- `UserManagement` (`user_manager.dfy`): `Authenticate`, the specification of
  one `getUserByNamePassword` call. `Run` is a sequence of such calls. Lemmas
  state the cache policy. The class `UserManager` is proved against
  `Authenticate`.
- `Correlator` (`correlator.dfy`): the `Request` object and the labeller with
  its counter. `Labels` specifies the ids handed out.
- `Shim` (`shim.dfy`): the route table and first-match dispatch.
- `Audit` (`audit.dfy`): the capture wrapper. `CaptureFaithful` proves that the
  captured body equals the data bytes handed to the original `write`/`end`,
  for the default UTF-8 encoding of string chunks.
- `Pipeline` (`pipeline.dfy`): the order of the stages for one request.

Two behaviours one might expect from an authentication provider are not in the code, and the model follows the code:

- A failing call to the identity service is not turned into a bad
  authentication. `getUserByNamePassword` has no `try`/`catch`, so a rejected
  call propagates and the callback is never invoked. That path is not modelled (see below).
- Lookup by name alone does not report "not found". `getUserByName` only logs
  and never calls its callback. The model returns `replied == false`.

## Model

| member | source | states |
|---|---|---|
| `OrderedMaps.Empty` | UserManager.ts:15 | `new Map()` has no keys and an empty iteration order |
| `OrderedMaps.OrderedMap.Set` | UserManager.ts:58 | `Map.set` maps the key to the value and leaves every other key and value alone; a new key joins the end of the iteration order, an existing one keeps its place |
| `OrderedMaps.OrderedMap.Has` | UserManager.ts:35 | `Map.prototype.has`: a key is present exactly when it is in the iteration order |
| `OrderedMaps.OrderedMap.Get` | UserManager.ts:36-37 | `Map.prototype.get` on a present key yields one of the values `values()` lists |
| `OrderedMaps.OrderedMap.Values` | UserManager.ts:69 | `[...map.values()]` lists one value per key, in insertion order |
| `OrderedMaps.ValuesExactly` | UserManager.ts:69 | the listed values are exactly the stored values |
| `UserManagement.Authenticate` | UserManager.ts:35-63 | a remote request is made iff the name is not cached, and then it is `{strategy:'local', username, password, privateDevice:true}`; a found user is cached under the name with the given password; no other key changes; a cached name leaves the cache unchanged; the key-to-name invariant is kept |
| `UserManagement.CacheHit` | UserManager.ts:35-38 | cached name and equal password: the cached user, no remote call, cache unchanged |
| `UserManagement.WrongPassword` | UserManager.ts:39-43 | cached name and other password: `BadAuthentication`, no remote call, cache unchanged |
| `UserManagement.FirstLogin` | UserManager.ts:46-59 | unseen name with a granted token: exactly one request; the user with the granted id and token is returned and stored under the name; the name joins the end of the order |
| `UserManagement.RejectedLogin` | UserManager.ts:46-63 | unseen name without a token in the answer: `BadAuthentication`, one request, cache unchanged |
| `UserManagement.SucceedsIff` | UserManager.ts:35-63 | authentication succeeds iff the cached password matches, or the name is unseen and the service grants a token |
| `UserManagement.SecondLoginHitsCache` | UserManager.ts:35-59 | after a success, the same name and password get the same reply from the cache, with no request and no change |
| `UserManagement.Run` | UserManager.ts:29-64 | sequential calls give one reply per attempt and keep the map and the key-to-name invariant valid |
| `UserManagement.RunKeepsCached` | UserManager.ts:35-58 | sequentially, a cached entry is never replaced and no later request names it |
| `UserManagement.RunCachesOnlyGranted` | UserManager.ts:46-59 | a name is cached only after a request with that name and the cached password was sent and granted; the stored id and token are the granted ones |
| `UserManagement.RepeatedLogin` | UserManager.ts:35-59 | repeating a successful login gives the first reply every time; only the first attempt can reach the service |
| `UserManagement.RepeatedHits` | UserManager.ts:35-38 | repeated logins with the cached password give the cached user, with no request and no change |
| `UserManagement.UserManager.constructor` | UserManager.ts:13-16 | a new manager has an empty user map |
| `UserManagement.UserManager.GetDefaultUser` | UserManager.ts:18-22 | always yields no user, and changes nothing |
| `UserManagement.UserManager.GetUserByName` | UserManager.ts:24-27 | never answers and changes nothing |
| `UserManagement.UserManager.GetUserByNamePassword` | UserManager.ts:29-64 | the reply, the new map and the requests sent are those of `Authenticate`; the invariant is kept |
| `UserManagement.UserManager.GetUsers` | UserManager.ts:66-70 | exactly the cached users, in first-cached order, each under its own name; changes nothing |
| `Identity.LocalLogin` | UserManager.ts:46-51 | the request body has strategy `local`, the given username and password, and `privateDevice` true |
| `Identity.HasAccessToken` | UserManager.ts:55 | `if (data.accessToken)`: an answer without a token, or with the empty string as token, is falsy; any other token is truthy |
| `Identity.IdentityClient.Post` | UserManager.ts:46-53 | the request is sent once, appended to the sent log, and the answer is the service's answer to it |
| `Correlator.Labels` | index.ts:42-48 | the first n requests of the process get ids 0, 1, ..., n-1 |
| `Correlator.LabelsAreSequenceNumbers` | index.ts:42-48 | the ids are strictly increasing, so no two requests share one |
| `Correlator.RequestLabeler.CallingNumber` | index.ts:51-54 | `String(reqCounter-1)` is the id of the most recently labelled request, and -1 only before the first request |
| `Correlator.RequestLabeler.constructor` | index.ts:42 | the counter starts at 0 with no ids issued |
| `Correlator.RequestLabeler.Label` | index.ts:44-48 | the request's `counter` is the count of earlier requests; the counter grows by exactly 1; the ids issued stay `Labels(reqCounter)` |
| `Shim.RoutesDistinct` | index.ts:56-145 | no two registered routes share a method and path, so a request matches at most one route |
| `Shim.Dispatch` | index.ts:56-145 | the router over the whole table: the first route that matches and responds answers with its payload; the request falls through iff none does |
| `Shim.DispatchFrom` | index.ts:56-145 | the first route that matches and responds answers, with its payload; the request falls through iff no route matches and responds |
| `Shim.StatusEndpoints` | index.ts:56-81 | both status paths answer with the fixed record: installed, no maintenance, no upgrade, "10.0.3.3", "10.0.3", "Community", "HPI Schul-Cloud" |
| `Shim.DocumentEndpoints` | index.ts:83-102 | both capabilities paths answer with the capabilities document; the v1 config path answers with the config document |
| `Shim.PassThroughEndpoints` | index.ts:94-139 | the navigation, user and avatar routes only call `next()`: the request falls through |
| `Shim.WebdavRootProbe` | index.ts:143-145 | `HEAD /remote.php/webdav//` is answered at once with an empty body |
| `Shim.AnsweredExactly` | index.ts:56-145 | the shim answers a request iff its method and path are one of the six answered endpoints |
| `Audit.ConcatAppend` | index.ts:187 | `Buffer.concat` of two lists of chunks is the concatenation of their concatenations |
| `Audit.CaptureFaithful` | index.ts:176-187 | the concatenated captured chunks equal the concatenated data bytes handed to the original `write`/`end` (string chunks read as UTF-8); a falsy `end` argument adds nothing |
| `Audit.Bytes` | index.ts:179 | `Buffer.from(restArgs[0])` (also index.ts:185): a Buffer's own bytes, a string's UTF-8 bytes |
| `Audit.Truthy` | index.ts:184 | `if (restArgs[0])`: no argument and the empty string are falsy, a Buffer and a non-empty string are truthy; a falsy argument carries no bytes |
| `Audit.Concat` | index.ts:187 | `Buffer.concat` is as long as all chunks together and starts with the first chunk |
| `Audit.AuditCapture.constructor` | index.ts:172-176 | the wrapper starts with an empty buffer, having forwarded and logged nothing |
| `Audit.AuditCapture.Write` | index.ts:178-181 | the chunk is pushed, then the call is forwarded unchanged |
| `Audit.AuditCapture.End` | index.ts:183-205 | a truthy argument is pushed; the logged body is all data handed to the original `write`/`end` including this call, as long as all captured chunks together; the log record is emitted before the `end` call is forwarded unchanged |
| `Pipeline.App.constructor` | index.ts:40-42 | at start-up the request counter is 0 |
| `Pipeline.App.Handle` | index.ts:44-208 | the request is stamped with its sequence number; the "Calling" line prints that same number; a request a shim route answers gets that payload and never reaches the audit wrapper; any other request gets a fresh, empty wrapper carrying its number |

## Left out

- Express and `webdav-server` plumbing are not modelled: the server, the `setFileSystem` mounts, `WebFileSystem`, the express mounts of the WebDAV engine and `app.listen` (index.ts:11-38, 211-217). They are the external engine and I/O.
- The identity service call is an arbitrary function. Transport errors, rejected promises and timeouts are not modelled. In the source such a failure propagates out of `getUserByNamePassword` and the callback is never invoked.
- An answer that carries an access token but no `account` would throw at `data.account.userId`. The model's answer type cannot express it.
- `User` and `loadRoles` are not part of this model (they live in `User.ts`, outside the modelled core). A cached user carries id, name, password and token, not roles. `await user.loadRoles()` (UserManager.ts:57) is a second suspension point: the model assumes it completes. If it rejects, the name stays uncached and the callback is never called, just as with a failing identity-service call.
- Concurrency across `await` points is not modelled. Two first logins for the same name can both miss the cache, and the last `set` wins. The model runs calls one after another. `OrderedMap.Set` does state that `set` overwrites an existing key in place.
- The capabilities and config documents come from a configuration file that is not part of this model. They are opaque payloads.
- Logging sinks, `new Date().toUTCString()`, client address and header extraction, and `JSON.stringify(req.body)` are left out. So are the `laterUri`, `uri`, `referer`, `ua` and `contentType` fields of the audit record. The record keeps `number`, `method`, `originalUri` and the response body. The body is kept as bytes, without UTF-8 decoding.
- Extra arguments to `write`/`end` (encoding, callback) are not modelled; only the data argument is, with string chunks held as their UTF-8 bytes. `write` always carries data, because `Buffer.from(undefined)` would throw.
- Shim.DispatchFrom: route matching is exact (method, path) equality. Express matches paths case-insensitively by default, tolerates one trailing slash, ignores the query string and also lets `app.get` routes answer `HEAD` requests. So the real shim answers more requests than `Shim.AnsweredExactly` lists.
- Correlator.RequestLabeler.Label: the counter is an unbounded natural. JavaScript numbers stop counting exactly above 2^53.
- The commented-out exploration code (index.ts:119-132, 147-167) is not modelled.
- Audit.CaptureFaithful: the captured body equals the data bytes handed to the original `write`/`end`, not necessarily the bytes on the wire. `Buffer.from(restArgs[0])` always reads a string as UTF-8, while the forwarded call uses the caller's encoding: `res.write('ff', 'hex')` sends the byte 0xFF but captures 0x66 0x66. Node also sends no body for `HEAD`, 204 and 304 responses, yet the wrapper still captures what was written.
- Audit.AuditCapture.Write / End: the replaced functions return `undefined`, whereas Node's `write` returns the backpressure flag and `end` returns the response, so a stream piped into a wrapped response never pauses; the model's `Write`/`End` return nothing and do not capture this. `res.end(callback)` puts the callback in `restArgs[0]`, which is truthy, so `Buffer.from` throws and the response is never ended; `End` takes only an optional data chunk and cannot express that call.
