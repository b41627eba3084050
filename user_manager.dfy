/**
 * The credential cache that the WebDAV engine's basic authentication asks for
 * users: a map from login name to the user first authenticated under that
 * name, consulted before the remote identity service.
 */
module UserManagement {
  import opened Wrappers
  import opened Identity
  import opened OrderedMaps

  /** A user as the cache stores it (roles are not modelled). */
  datatype User = User(id: string, name: string, password: string, accessToken: string)

  /** What the callback receives: `callback(null, user)` or `callback(BadAuthentication)`. */
  datatype Reply = Found(user: User) | BadAuthentication

  type Users = OrderedMap<User>

  /** Every cached user is stored under its own name. */
  ghost predicate WellKeyed(users: Users) {
    users.Valid() && forall k :: k in users.entries ==> users.entries[k].name == k
  }

  /** One authentication: the reply, the cache afterwards and the requests sent to the service. */
  datatype Step = Step(reply: Reply, users: Users, requests: seq<AuthRequest>)

  /**
   * Authentication by name and password. A cached name is answered from the
   * cache by exact password comparison; any other name is sent to the service
   * once, and cached only when the answer carries an access token.
   */
  function Authenticate(users: Users, name: string, password: string, service: Service): (s: Step)
    requires users.Valid()
    ensures s.users.Valid()
    ensures WellKeyed(users) ==> WellKeyed(s.users)
    ensures s.requests == if users.Has(name) then [] else [LocalLogin(name, password)]
    ensures s.reply.Found? ==> s.users.Has(name) && s.users.Get(name) == s.reply.user
    ensures WellKeyed(users) && s.reply.Found? ==> s.reply.user.name == name
    ensures s.reply.Found? ==> s.reply.user.password == password
    ensures forall k :: k != name ==> (s.users.Has(k) <==> users.Has(k))
    ensures forall k :: k != name && users.Has(k) ==> s.users.Get(k) == users.Get(k)
    ensures users.Has(name) ==> s.users == users
  {
    if users.Has(name) then
      if users.Get(name).password == password then
        Step(Found(users.Get(name)), users, [])
      else
        Step(BadAuthentication, users, [])
    else
      var q := LocalLogin(name, password);
      var data := service(q);
      if HasAccessToken(data) then
        var user := User(data.value.userId, name, password, data.value.accessToken);
        Step(Found(user), users.Set(name, user), [q])
      else
        Step(BadAuthentication, users, [q])
  }

  /** A cached name with the cached password: the cached user, no remote call, cache unchanged. */
  lemma CacheHit(users: Users, name: string, password: string, service: Service)
    requires users.Valid() && users.Has(name) && users.Get(name).password == password
    ensures Authenticate(users, name, password, service) == Step(Found(users.Get(name)), users, [])
  {
  }

  /** A cached name with another password: rejected, no remote call, cache unchanged. */
  lemma WrongPassword(users: Users, name: string, password: string, service: Service)
    requires users.Valid() && users.Has(name) && users.Get(name).password != password
    ensures Authenticate(users, name, password, service) == Step(BadAuthentication, users, [])
  {
  }

  /**
   * An unseen name whose login the service grants: exactly one request, with
   * the local strategy and `privateDevice`, and exactly this key is added.
   */
  lemma FirstLogin(users: Users, name: string, password: string, service: Service)
    requires users.Valid() && !users.Has(name)
    requires HasAccessToken(service(LocalLogin(name, password)))
    ensures var g := service(LocalLogin(name, password)).value;
            var user := User(g.userId, name, password, g.accessToken);
            var s := Authenticate(users, name, password, service);
            && s.reply == Found(user)
            && s.requests == [AuthRequest("local", name, password, true)]
            && s.users.Has(name) && s.users.Get(name) == user
            && s.users.order == users.order + [name]
  {
  }

  /** An unseen name whose login the service does not grant: rejected, one request, cache unchanged. */
  lemma RejectedLogin(users: Users, name: string, password: string, service: Service)
    requires users.Valid() && !users.Has(name)
    requires !HasAccessToken(service(LocalLogin(name, password)))
    ensures Authenticate(users, name, password, service) == Step(BadAuthentication, users, [LocalLogin(name, password)])
  {
  }

  /** Authentication succeeds exactly for the cached password, or for an unseen name the service grants. */
  lemma SucceedsIff(users: Users, name: string, password: string, service: Service)
    requires users.Valid()
    ensures Authenticate(users, name, password, service).reply.Found? <==>
            if users.Has(name) then users.Get(name).password == password
            else HasAccessToken(service(LocalLogin(name, password)))
  {
  }

  /** After a successful authentication, the same name and password are answered from the cache. */
  lemma SecondLoginHitsCache(users: Users, name: string, password: string, service: Service)
    requires users.Valid()
    requires Authenticate(users, name, password, service).reply.Found?
    ensures var s := Authenticate(users, name, password, service);
            Authenticate(s.users, name, password, service) == Step(s.reply, s.users, [])
  {
  }

  /** One sequential login attempt. */
  datatype Attempt = Attempt(name: string, password: string)

  /** The replies, final cache and service requests of a sequence of attempts. */
  datatype Trace = Trace(replies: seq<Reply>, users: Users, requests: seq<AuthRequest>)

  /** Attempts handled one after another, each on the cache the previous one left. */
  function Run(users: Users, attempts: seq<Attempt>, service: Service): (t: Trace)
    requires users.Valid()
    ensures t.users.Valid()
    ensures |t.replies| == |attempts|
    ensures WellKeyed(users) ==> WellKeyed(t.users)
    decreases |attempts|
  {
    if attempts == [] then Trace([], users, [])
    else
      var s := Authenticate(users, attempts[0].name, attempts[0].password, service);
      var t := Run(s.users, attempts[1..], service);
      Trace([s.reply] + t.replies, t.users, s.requests + t.requests)
  }

  /**
   * Sequentially, a cached entry is never replaced, and no request for its
   * name ever reaches the service again.
   */
  lemma {:induction false} RunKeepsCached(attempts: seq<Attempt>, users: Users, service: Service, name: string)
    requires users.Valid() && users.Has(name)
    ensures var t := Run(users, attempts, service);
            && t.users.Has(name) && t.users.Get(name) == users.Get(name)
            && forall q :: q in t.requests ==> q.username != name
  {
    if attempts != [] {
      var s := Authenticate(users, attempts[0].name, attempts[0].password, service);
      RunKeepsCached(attempts[1..], s.users, service, name);
    }
  }

  /**
   * A name is cached only after the service granted a login with that name
   * and the cached password; the stored id and token are the granted ones.
   */
  lemma {:induction false} RunCachesOnlyGranted(attempts: seq<Attempt>, users: Users, service: Service, name: string)
    requires users.Valid() && !users.Has(name)
    requires Run(users, attempts, service).users.Has(name)
    ensures var u := Run(users, attempts, service).users.Get(name);
            && u.name == name
            && LocalLogin(name, u.password) in Run(users, attempts, service).requests
            && HasAccessToken(service(LocalLogin(name, u.password)))
            && service(LocalLogin(name, u.password)).value == Grant(u.id, u.accessToken)
  {
    var s := Authenticate(users, attempts[0].name, attempts[0].password, service);
    if s.users.Has(name) {
      assert attempts[0].name == name;
      RunKeepsCached(attempts[1..], s.users, service, name);
    } else {
      RunCachesOnlyGranted(attempts[1..], s.users, service, name);
    }
  }

  /**
   * The same successful login repeated: every repetition gets the first
   * reply, and only the first can have reached the service.
   */
  lemma {:induction false} RepeatedLogin(users: Users, a: Attempt, n: nat, service: Service)
    requires users.Valid()
    requires Authenticate(users, a.name, a.password, service).reply.Found?
    ensures var s := Authenticate(users, a.name, a.password, service);
            var t := Run(users, seq(n + 1, _ => a), service);
            && (forall i :: 0 <= i < |t.replies| ==> t.replies[i] == s.reply)
            && t.requests == s.requests
            && t.users == s.users
  {
    var s := Authenticate(users, a.name, a.password, service);
    RepeatedHits(s.users, a, n, service);
    assert seq(n + 1, _ => a)[1..] == seq(n, _ => a);
  }

  lemma {:induction false} RepeatedHits(users: Users, a: Attempt, n: nat, service: Service)
    requires users.Valid() && users.Has(a.name) && users.Get(a.name).password == a.password
    ensures var t := Run(users, seq(n, _ => a), service);
            && (forall i :: 0 <= i < n ==> t.replies[i] == Found(users.Get(a.name)))
            && t.requests == []
            && t.users == users
  {
    if n > 0 {
      assert seq(n, _ => a)[1..] == seq(n - 1, _ => a);
      RepeatedHits(users, a, n - 1, service);
    }
  }

  /** The `UserManager` object the WebDAV server's authentication consults. */
  class UserManager {
    var users: Users

    ghost predicate Valid()
      reads this
    {
      WellKeyed(users)
    }

    /** A new manager caches nobody. */
    constructor ()
      ensures Valid() && users == Empty()
    {
      users := Empty();
    }

    /** There is no anonymous user: the callback receives `null`. */
    method GetDefaultUser() returns (user: Option<User>)
      ensures user == None
    {
      user := None;
    }

    /**
     * Lookup by name alone. The source's body only logs: the callback is never
     * invoked (`replied` is false) and nothing is looked up or changed.
     */
    method GetUserByName(name: string) returns (replied: bool)
      ensures !replied
    {
      replied := false;
    }

    /** `getUserByNamePassword`, with the identity service reached through `api`. */
    method GetUserByNamePassword(name: string, password: string, api: IdentityClient) returns (reply: Reply)
      requires Valid()
      modifies this, api
      ensures Valid()
      ensures var s := Authenticate(old(users), name, password, api.respond);
              && reply == s.reply
              && users == s.users
              && api.sent == old(api.sent) + s.requests
    {
      if users.Has(name) {
        if users.Get(name).password == password {
          reply := Found(users.Get(name));
          return;
        } else {
          reply := BadAuthentication;
          return;
        }
      }
      var data := api.Post(LocalLogin(name, password));
      if HasAccessToken(data) {
        var user := User(data.value.userId, name, password, data.value.accessToken);
        users := users.Set(name, user);
        reply := Found(user);
      } else {
        reply := BadAuthentication;
      }
    }

    /** `[...this.users.values()]`: every cached user, in the order their names were first cached. */
    method GetUsers() returns (all: seq<User>)
      requires Valid()
      ensures |all| == |users.order|
      ensures forall i :: 0 <= i < |all| ==> all[i] == users.entries[users.order[i]] && all[i].name == users.order[i]
      ensures forall k :: users.Has(k) ==> users.Get(k) in all
    {
      all := users.Values();
      ValuesExactly(users);
    }
  }
}
