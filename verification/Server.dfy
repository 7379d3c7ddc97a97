/** The server's shared state and the critical sections that change it. */
module Servers {
  import opened Basics
  import opened Configs
  import opened MultiMaps
  import opened Router

  /** A control channel handle: which handshake made it and the configuration it runs with. */
  datatype Handle = Handle(id: nat, service: ServerService)

  type Registry = set<Triple<Digest, Digest, Handle>>

  datatype View = View(services: map<Digest, ServerService>, channels: Registry, routes: seq<HttpRoute>)

  // ---------------------------------------------------------------- effect of a service change

  function ChangedName(change: ServiceChange<ServerService>): Bytes {
    match change case Add(c) => c.name case Delete(n) => n
  }

  function RouteOf(c: ServerService): HttpRoute {
    HttpRoute(c.name,
              if c.customDomains.Some? then c.customDomains.value else [],
              c.subdomain,
              if c.locations.Some? then c.locations.value else [],
              c.rest)
  }

  /** The route of a service serves a host exactly if the host, without its port and ignoring ASCII case, is one of the
      service's custom domains or its subdomain of the server's; it is a catch-all exactly if the service names no
      locations, and otherwise matches by the longest location the service names. */
  lemma RouteServesItsService(c: ServerService, q: Query, n: int)
    ensures RouteOf(c).serviceName == c.name
    ensures Serves(RouteOf(c), q) <==>
      exists h :: HostPart(q.host, h) &&
        ((c.customDomains.Some? && exists d :: d in c.customDomains.value && SameText(d, h))
         || (c.subdomain.Some? && q.subdomainHost.Some?
             && SameText(c.subdomain.value + [0x2E] + q.subdomainHost.value, h)))
    ensures Score(RouteOf(c), q) == 0 <==> Serves(RouteOf(c), q) && (c.locations == None || c.locations == Some([]))
    ensures n > 0 ==>
      (Score(RouteOf(c), q) == n <==>
        && Serves(RouteOf(c), q) && c.locations.Some?
        && (exists l :: l in c.locations.value && l <= q.path && |l| == n)
        && forall l :: l in c.locations.value && l <= q.path ==> |l| <= n)
  {
    ScoreMeaning(RouteOf(c), q);
    assert Longest(RouteOf(c), q, n) ==> RouteOf(c).locations != [];
  }

  function TableAfter(sha: Sha, services: map<Digest, ServerService>, change: ServiceChange<ServerService>)
    : map<Digest, ServerService>
  {
    match change
    case Add(c) => services[sha(c.name) := c]
    case Delete(n) => services - {sha(n)}
  }

  /** Routes are replaced only when the new type is HTTP(S); a service that stops being HTTP(S) keeps its route. */
  function RoutesAfter(routes: seq<HttpRoute>, change: ServiceChange<ServerService>): seq<HttpRoute> {
    match change
    case Add(c) => if c.IsHttp() then WithoutService(routes, c.name) + [RouteOf(c)] else routes
    case Delete(n) => WithoutService(routes, n)
  }

  ghost function Reloaded(sha: Sha, v: View, change: ServiceChange<ServerService>): View {
    View(TableAfter(sha, v.services, change),
         Without1(v.channels, sha(ChangedName(change))),
         RoutesAfter(v.routes, change))
  }

  // ---------------------------------------------------------------- effect of a successful authentication

  /** Under the registry lock: drop the service's previous channel, then, if the acknowledgement could be written,
      insert the new handle.  The result of the insertion is ignored. */
  ghost function ChannelsAfterAuth(channels: Registry, digest: Digest, key: Digest, handle: Handle, ackOk: bool)
    : Registry
  {
    var rest := Without1(channels, digest);
    if ackOk then Inserted(rest, Triple(digest, key, handle)) else rest
  }

  /** The ignored insertion is refused exactly when another service's channel holds the same session key. */
  lemma InsertRefusedExactlyOnForeignKey(channels: Registry, digest: Digest, key: Digest)
    ensures !CanInsert(Without1(channels, digest), digest, key)
       <==> exists x :: x in channels && x.k1 != digest && x.k2 == key
  {
    if x :| x in channels && x.k1 != digest && x.k2 == key {
      assert x in Without1(channels, digest);
    }
  }

  // ---------------------------------------------------------------- implementation

  class Server {
    const sha: Sha
    var services: map<Digest, ServerService>
    const channels: MultiMap<Digest, Digest, Handle>
    const router: VhostRouter

    ghost predicate Valid()
      reads this, channels
    {
      channels.Valid()
    }

    ghost function State(): View
      reads this, channels, router
    {
      View(services, channels.Contents(), router.routes)
    }

    constructor (sha: Sha, services: map<Digest, ServerService>, subdomainHost: Option<Bytes>)
      ensures Valid() && fresh(channels) && fresh(router)
      ensures this.sha == sha && State() == View(services, {}, [])
    {
      this.sha, this.services := sha, services;
      channels := new MultiMap();
      router := new VhostRouter(subdomainHost);
    }

    method HandleHotReload(e: ConfigChange)
      requires Valid()
      modifies this`services, channels, router
      ensures Valid()
      ensures State() == if e.ServerChange? then Reloaded(sha, old(State()), e.server) else old(State())
    {
      match e {
        case ServerChange(Add(cfg)) =>
          var hash := sha(cfg.name);
          if cfg.IsHttp() {
            router.RemoveRoute(cfg.name);
            router.AddRoute(RouteOf(cfg));
          }
          services := services[hash := cfg];
          var _ := channels.Remove1(hash);
        case ServerChange(Delete(name)) =>
          var hash := sha(name);
          services := services - {hash};
          router.RemoveRoute(name);
          var _ := channels.Remove1(hash);
        case _ =>
      }
    }

    /** The end of a control-channel handshake whose authentication succeeded. */
    method FinishHandshake(digest: Digest, key: Digest, handle: Handle, ackOk: bool) returns (inserted: bool)
      requires Valid()
      modifies channels
      ensures Valid()
      ensures State() == old(State()).(channels :=
        ChannelsAfterAuth(old(State().channels), digest, key, handle, ackOk))
      ensures inserted <==> ackOk && !exists x :: x in old(State().channels) && x.k1 != digest && x.k2 == key
    {
      InsertRefusedExactlyOnForeignKey(channels.Contents(), digest, key);
      var _ := channels.Remove1(digest);
      inserted := false;
      if ackOk {
        inserted := channels.Insert(digest, key, handle);
      }
    }

    /** The handle a data-channel hello is routed to: the one whose session key it presented. */
    method RouteDataChannel(key: Digest) returns (r: Option<Handle>)
      requires Valid()
      ensures r.None? <==> !HasKey2(State().channels, key)
      ensures r.Some? ==> exists digest :: Triple(digest, key, r.value) in State().channels
    {
      r := channels.Get2(key);
    }
  }
}
