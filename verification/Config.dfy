/** Configuration data as the server, the client and the watcher see it after validation.

    Fields that no modelled decision reads are folded into `rest`, which is only ever compared for equality. */
module Configs {
  import opened Basics

  datatype ServiceType = Tcp | Udp | Http | Https | Tcpmux | Stcp | Sudp | Xtcp

  datatype ServerService = ServerService(
    name: Bytes,
    kind: ServiceType,
    enabled: Option<bool>,
    token: Option<Bytes>,
    customDomains: Option<seq<Bytes>>,
    subdomain: Option<Bytes>,
    locations: Option<seq<Bytes>>,
    rest: Bytes)
  {
    /** Unless the file says otherwise, a service is enabled. */
    predicate IsEnabled()
      ensures IsEnabled() <==> enabled != Some(false)
    {
      enabled.None? || enabled.value
    }

    predicate IsHttp()
      ensures IsHttp() <==> kind !in {Tcp, Udp, Tcpmux, Stcp, Sudp, Xtcp}
    {
      kind.Http? || kind.Https?
    }
  }

  datatype ClientService = ClientService(
    name: Bytes,
    kind: ServiceType,
    enabled: Option<bool>,
    serverName: Option<Bytes>,
    rest: Bytes)
  {
    predicate IsEnabled()
      ensures IsEnabled() <==> enabled != Some(false)
    {
      enabled.None? || enabled.value
    }

    predicate IsVisitor()
      ensures IsVisitor() <==> kind !in {Tcp, Udp, Http, Https, Tcpmux} && serverName != None
    {
      (kind.Stcp? || kind.Sudp? || kind.Xtcp?) && serverName.Some?
    }
  }

  /** Services by name. */
  type ServerServices = map<Bytes, ServerService>
  type ClientServices = map<Bytes, ClientService>

  datatype ServerConfig = ServerConfig(services: ServerServices, rest: Bytes)

  datatype ClientConfig = ClientConfig(
    services: ClientServices,
    user: Option<Bytes>,
    start: Option<seq<Bytes>>,
    rest: Bytes)

  datatype Config = Config(server: Option<ServerConfig>, client: Option<ClientConfig>)

  /** The name validation gives a client service: the key of its table, behind the user's prefix if there is one. */
  function ClientName(user: Option<Bytes>, key: Bytes): (name: Bytes)
    ensures user == None ==> name == key
    ensures user != None ==> |name| == |user.value| + 1 + |key|
    ensures user != None ==>
      user.value <= name && name[|user.value|] == 0x2E && name[|user.value| + 1..] == key
  {
    if user.Some? then user.value + [DOT] + key else key
  }

  predicate ServerWellNamed(c: ServerConfig) {
    forall n :: n in c.services ==> c.services[n].name == n
  }

  predicate ClientWellNamed(c: ClientConfig) {
    forall n :: n in c.services ==> c.services[n].name == ClientName(c.user, n)
  }

  /** What validation establishes about names. */
  predicate WellNamed(c: Config) {
    (c.server.Some? ==> ServerWellNamed(c.server.value)) && (c.client.Some? ==> ClientWellNamed(c.client.value))
  }

  /** What validation demands of a server service, of the fields modelled here; a disabled one is not looked at. */
  predicate Accepted(s: ServerService) {
    s.IsEnabled() ==> s.token.Some? && (s.IsHttp() ==> s.customDomains.Some? || s.subdomain.Some?)
  }

  predicate ServerAccepted(c: ServerConfig) {
    forall n :: n in c.services ==> Accepted(c.services[n])
  }

  datatype ServiceChange<C> = Add(service: C) | Delete(name: Bytes)

  datatype ConfigChange =
    | General(config: Config)
    | ServerChange(server: ServiceChange<ServerService>)
    | ClientChange(client: ServiceChange<ClientService>)

  /** SHA-256 is a parameter of the model; the results that need it assume no collision among the inputs in use. */
  const HASH_WIDTH: nat := 32

  type Digest = Bytes
  type Sha = Bytes -> Digest

  ghost predicate CollisionFree(sha: Sha, inputs: set<Bytes>) {
    forall x, y :: x in inputs && y in inputs && sha(x) == sha(y) ==> x == y
  }
}
