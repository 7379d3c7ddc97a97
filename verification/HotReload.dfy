/** Hot reload against restart: replaying the watcher's events through the run loop compared with starting afresh from
    the last file. */
module HotReload {
  import opened Basics
  import opened Configs
  import opened ConfigDiff
  import opened Router
  import opened Servers

  // ---------------------------------------------------------------- the run loop

  datatype Args = Args(client: bool, server: bool)

  datatype RunMode = RunServer | RunClient | Undetermined

  function DetermineRunMode(config: Config, args: Args): RunMode {
    if args.client && args.server then Undetermined
    else if args.client then RunClient
    else if args.server then RunServer
    else if config.client.Some? && config.server.None? then RunClient
    else if config.server.Some? && config.client.None? then RunServer
    else Undetermined
  }

  /** The run mode, case by case: flags win, both at once are refused; without flags the only block decides. */
  lemma RunModeTable(config: Config, args: Args)
    ensures DetermineRunMode(config, args) == RunClient <==>
      !args.server && (args.client || (config.client != None && config.server == None))
    ensures DetermineRunMode(config, args) == RunServer <==>
      !args.client && (args.server || (config.server != None && config.client == None))
    ensures DetermineRunMode(config, args) == Undetermined <==>
      (args.client && args.server)
      || (!args.client && !args.server && (config.client == None <==> config.server == None))
  {
  }

  datatype Instance =
    | NotStarted
    | ServerUp(view: View)
    | ClientUp(handles: ClientServices)   // the configuration each control channel runs with
    | Down                                           // the instance task returned an error or panicked
    | Exited                                         // the run loop itself gave up

  /** `generate_service_hashmap` for one iteration order. */
  function FreshTable(sha: Sha, services: ServerServices, order: seq<Bytes>): map<Digest, ServerService>
    requires forall n :: n in order ==> n in services
  {
    if order == [] then map[]
    else
      var last := order[|order| - 1];
      var table := FreshTable(sha, services, order[..|order| - 1]);
      if services[last].IsEnabled() then table[sha(last) := services[last]] else table
  }

  /** The routes registered at start, for one iteration order. */
  function FreshRoutes(services: ServerServices, order: seq<Bytes>): seq<HttpRoute>
    requires forall n :: n in order ==> n in services
  {
    if order == [] then []
    else
      var last := order[|order| - 1];
      var routes := FreshRoutes(services, order[..|order| - 1]);
      if services[last].IsEnabled() && services[last].IsHttp()
      then routes + [RouteOf(services[last]).(serviceName := last)] else routes
  }

  predicate Starts(config: ClientConfig, n: Bytes) {
    && n in config.services && config.services[n].IsEnabled() && !config.services[n].IsVisitor()
    && (config.start.Some? ==> n in config.start.value)
  }

  /** The control channels a client starts with, under the keys of its table. */
  function FreshHandles(config: ClientConfig): ClientServices {
    map n | n in config.services && Starts(config, n) :: config.services[n]
  }

  /** A client starts a control channel for a service exactly if the service is not switched off, is not a visitor (an
      stcp, sudp or xtcp service that names a server) and is in the start list if there is one. */
  lemma FreshHandlesExactly(config: ClientConfig, n: Bytes)
    ensures n in FreshHandles(config) <==>
      && n in config.services && config.services[n].enabled != Some(false)
      && !(config.services[n].kind in {Stcp, Sudp, Xtcp} && config.services[n].serverName != None)
      && (config.start == None || n in config.start.value)
    ensures n in FreshHandles(config) ==> FreshHandles(config)[n] == config.services[n]
  {
  }

  ghost function Start(sha: Sha, args: Args, config: Config, o: Orders): Instance {
    match DetermineRunMode(config, args)
    case Undetermined => Down
    case RunServer =>
      if config.server.None? || !(forall n :: n in o.newServer ==> n in config.server.value.services) then Down
      else
        var services := config.server.value.services;
        ServerUp(View(FreshTable(sha, services, o.newServer), {}, FreshRoutes(services, o.newServer)))
    case RunClient =>
      if config.client.None? then Down else ClientUp(FreshHandles(config.client.value))
  }

  /** Where a client stores an added service; additions of disabled services are ignored. */
  function ClientKey(): KeyFunction<ClientService> {
    (c: ClientService) => if c.IsEnabled() then Some(c.name) else None
  }

  ghost function OnEvent(sha: Sha, args: Args, i: Instance, e: ConfigChange, o: Orders): Instance {
    match e
    case General(config) => if i.Down? || i.Exited? then Exited else Start(sha, args, config, o)
    case ServerChange(change) => if i.ServerUp? then ServerUp(Reloaded(sha, i.view, change)) else i
    case ClientChange(change) => if i.ClientUp? then ClientUp(After(i.handles, change, ClientKey())) else i
  }

  ghost function OnEvents(sha: Sha, args: Args, i: Instance, es: seq<ConfigChange>, o: Orders): Instance
    decreases |es|
  {
    if es == [] then i else OnEvents(sha, args, OnEvent(sha, args, i, es[0], o), es[1..], o)
  }

  /** One change of the file on disk: its content, missing when invalid, and the iteration orders it meets. */
  datatype FileEvent = FileEvent(file: Option<Config>, orders: Orders)

  /** The watcher's last configuration and the running instance. */
  datatype World = World(config: Config, instance: Instance)

  ghost function OnFile(sha: Sha, args: Args, w: World, f: FileEvent): World {
    if f.file.None? then w
    else World(f.file.value,
               OnEvents(sha, args, w.instance, CalculateEvents(w.config, f.file.value, f.orders), f.orders))
  }

  ghost function OnFiles(sha: Sha, args: Args, w: World, fs: seq<FileEvent>): World
    decreases |fs|
  {
    if fs == [] then w else OnFiles(sha, args, OnFile(sha, args, w, fs[0]), fs[1..])
  }

  /** The initial General event: no instance is running yet. */
  ghost function Boot(sha: Sha, args: Args, origin: Config, o: Orders): World {
    World(origin, OnEvent(sha, args, NotStarted, General(origin), o))
  }

  /** What the first event starts, for every combination of flags and blocks. */
  lemma BootTable(sha: Sha, args: Args, config: Config, o: Orders)
    requires config.server.Some? ==> Enumerates(o.newServer, config.server.value.services.Keys)
    ensures var i := Boot(sha, args, config, o).instance;
      && (!args.server && (args.client || config.server == None) && config.client != None ==>
            i == ClientUp(FreshHandles(config.client.value)))
      && (!args.client && (args.server || config.client == None) && config.server != None ==>
            var services := config.server.value.services;
            i == ServerUp(View(FreshTable(sha, services, o.newServer), {}, FreshRoutes(services, o.newServer))))
      && ((args.client && args.server) || (config.client == None && config.server == None) ==> i == Down)
      && (!args.client && !args.server && config.client != None && config.server != None ==> i == Down)
      && (args.client && config.client == None ==> i == Down)
      && (args.server && config.server == None ==> i == Down)
  {
    RunModeTable(config, args);
  }

  /** A restart while the instance is down ends the run loop, and nothing brings it back; service events are lost on an
      instance that is down. */
  lemma {:induction false} DownEndsTheLoop(sha: Sha, args: Args, i: Instance, es: seq<ConfigChange>, o: Orders)
    requires i.Down? || i.Exited?
    ensures OnEvents(sha, args, i, es, o) == if exists k :: 0 <= k < |es| && es[k].General? then Exited else i
    decreases |es|
  {
    if es == [] {
    } else {
      DownEndsTheLoop(sha, args, OnEvent(sha, args, i, es[0], o), es[1..], o);
      assert es == [es[0]] + es[1..];
    }
  }

  // ---------------------------------------------------------------- the server object follows the run loop

  method GenerateServiceHashmap(sha: Sha, services: ServerServices, order: seq<Bytes>)
    returns (table: map<Digest, ServerService>)
    requires forall n :: n in order ==> n in services
    ensures table == FreshTable(sha, services, order)
  {
    table := map[];
    for i := 0 to |order|
      invariant table == FreshTable(sha, services, order[..i])
    {
      assert order[..i + 1][..i] == order[..i];
      if services[order[i]].IsEnabled() {
        table := table[sha(order[i]) := services[order[i]]];
      }
    }
    assert order[..|order|] == order;
  }

  /** `Server::from`: a new server object is in the state the run loop starts. */
  method StartServer(sha: Sha, config: ServerConfig, subdomainHost: Option<Bytes>, order: seq<Bytes>)
    returns (server: Server)
    requires forall n :: n in order ==> n in config.services
    ensures fresh(server) && fresh(server.channels) && fresh(server.router) && server.Valid() && server.sha == sha
    ensures server.State() == View(FreshTable(sha, config.services, order), {}, FreshRoutes(config.services, order))
  {
    var table := GenerateServiceHashmap(sha, config.services, order);
    server := new Server(sha, table, subdomainHost);
    for i := 0 to |order|
      invariant fresh(server) && fresh(server.channels) && fresh(server.router)
      invariant server.Valid() && server.State() == View(table, {}, FreshRoutes(config.services, order[..i]))
    {
      var name, service := order[i], config.services[order[i]];
      assert order[..i + 1][..i] == order[..i];
      if service.IsEnabled() && service.IsHttp() {
        server.router.AddRoute(RouteOf(service).(serviceName := name));
      }
    }
    assert order[..|order|] == order;
  }

  /** Forwarding service events to a server object has the effect the run loop describes. */
  method ForwardToServer(server: Server, ghost args: Args, events: seq<ConfigChange>, ghost o: Orders)
    requires server.Valid() && forall e :: e in events ==> !e.General?
    modifies server`services, server.channels, server.router
    ensures server.Valid()
    ensures OnEvents(server.sha, args, ServerUp(old(server.State())), events, o) == ServerUp(server.State())
  {
    ghost var start := ServerUp(server.State());
    for i := 0 to |events|
      invariant server.Valid()
      invariant OnEvents(server.sha, args, start, events[..i], o) == ServerUp(server.State())
    {
      assert events[i] in events;
      ghost var before := ServerUp(server.State());
      server.HandleHotReload(events[i]);
      assert events[..i + 1] == events[..i] + [events[i]];
      OnEventsConcat(server.sha, args, start, events[..i], [events[i]], o);
      assert OnEvents(server.sha, args, before, [events[i]], o) == OnEvent(server.sha, args, before, events[i], o) by {
        assert [events[i]][1..] == [];
      }
    }
    assert events[..|events|] == events;
  }

  // ---------------------------------------------------------------- tables by digest and by name

  /** `table`, keyed by digest, holds exactly the services of `names`. */
  ghost predicate Represents(sha: Sha, table: map<Digest, ServerService>, names: ServerServices) {
    && (forall n :: n in names ==> sha(n) in table && table[sha(n)] == names[n])
    && (forall d :: d in table ==> exists n :: n in names && sha(n) == d)
  }

  function ServerKey(): KeyFunction<ServerService> {
    (c: ServerService) => Some(c.name)
  }

  ghost predicate NamesWithin(names: ServerServices, universe: set<Bytes>) {
    names.Keys <= universe
  }

  lemma RepresentsPut(sha: Sha, universe: set<Bytes>, table: map<Digest, ServerService>,
                      names: ServerServices, name: Bytes, c: ServerService)
    requires CollisionFree(sha, universe) && NamesWithin(names, universe) && name in universe
    requires Represents(sha, table, names)
    ensures Represents(sha, table[sha(name) := c], names[name := c])
  {
    var table', names' := table[sha(name) := c], names[name := c];
    forall d | d in table' ensures exists n :: n in names' && sha(n) == d {
      if d == sha(name) {
        assert name in names';
      } else {
        var n :| n in names && sha(n) == d;
        assert n in names';
      }
    }
  }

  lemma RepresentsAfter(sha: Sha, universe: set<Bytes>, table: map<Digest, ServerService>,
                        names: ServerServices, change: ServiceChange<ServerService>)
    requires CollisionFree(sha, universe) && NamesWithin(names, universe) && ChangedName(change) in universe
    requires Represents(sha, table, names)
    ensures Represents(sha, TableAfter(sha, table, change), After(names, change, ServerKey()))
    ensures NamesWithin(After(names, change, ServerKey()), universe)
  {
    match change {
      case Add(c) => RepresentsPut(sha, universe, table, names, c.name, c);
      case Delete(name) =>
        forall d | d in table - {sha(name)} ensures exists n :: n in names - {name} && sha(n) == d {
          var n :| n in names && sha(n) == d;
          assert n in names - {name};
        }
    }
  }

  /** Two tables of the same services are equal, and under no collision equal tables hold the same services. */
  lemma RepresentsExactly(sha: Sha, universe: set<Bytes>, t1: map<Digest, ServerService>, n1: ServerServices,
                          t2: map<Digest, ServerService>, n2: ServerServices)
    requires CollisionFree(sha, universe) && NamesWithin(n1, universe) && NamesWithin(n2, universe)
    requires Represents(sha, t1, n1) && Represents(sha, t2, n2)
    ensures t1 == t2 <==> n1 == n2
  {
    if t1 == t2 {
      forall n ensures n in n1 <==> n in n2 {
        if n in n1 {
          var m :| m in n2 && sha(m) == sha(n);
        }
        if n in n2 {
          var m :| m in n1 && sha(m) == sha(n);
        }
      }
      assert n1 == n2;
    }
    if n1 == n2 {
      assert forall d :: d in t1 <==> d in t2;
    }
  }

  function EnabledAmong(services: ServerServices, order: seq<Bytes>): ServerServices {
    map n | n in services && n in order && services[n].IsEnabled() :: services[n]
  }

  lemma EnabledAmongGrows(services: ServerServices, init: seq<Bytes>, last: Bytes)
    requires last in services
    ensures EnabledAmong(services, init + [last])
         == if services[last].IsEnabled() then EnabledAmong(services, init)[last := services[last]]
            else EnabledAmong(services, init)
  {
  }

  /** For every iteration order a fresh table holds exactly the enabled services. */
  lemma {:induction false} FreshTableHoldsEnabled(sha: Sha, services: ServerServices, order: seq<Bytes>)
    requires forall n :: n in order ==> n in services
    requires CollisionFree(sha, services.Keys)
    ensures Represents(sha, FreshTable(sha, services, order), EnabledAmong(services, order))
  {
    if order == [] {
    } else {
      var init, last := order[..|order| - 1], order[|order| - 1];
      assert order == init + [last];
      FreshTableHoldsEnabled(sha, services, init);
      EnabledAmongGrows(services, init, last);
      if services[last].IsEnabled() {
        RepresentsPut(sha, services.Keys, FreshTable(sha, services, init), EnabledAmong(services, init), last,
                      services[last]);
      }
    }
  }

  // ---------------------------------------------------------------- the server's table after any run of file changes

  /** The services a server holds: the enabled ones of its file, and the disabled ones a reload has touched. */
  function Listed(services: ServerServices, touched: set<Bytes>): ServerServices {
    map n | n in services && (services[n].IsEnabled() || n in touched) :: services[n]
  }

  predicate NeedsRestart(was: Config, now: Config) {
    || was.server.Some? != now.server.Some? || was.client.Some? != now.client.Some?
    || (was.server.Some? && was.server.value.(services := map[]) != now.server.value.(services := map[]))
    || (was.client.Some? && was.client.value.(services := map[]) != now.client.value.(services := map[]))
  }

  function TouchedByReload(was: ServerServices, now: ServerServices, touched: set<Bytes>)
    : set<Bytes>
  {
    set n | n in now && (n in touched || Changed(was, now, n))
  }

  /** The services added or changed by a reload since the last restart and still in the file. */
  function TouchedAfter(was: Config, now: Config, touched: set<Bytes>): set<Bytes> {
    if now.server.None? || NeedsRestart(was, now) then {}
    else TouchedByReload(was.server.value.services, now.server.value.services, touched)
  }

  function TouchedAfterAll(was: Config, fs: seq<FileEvent>, touched: set<Bytes>): set<Bytes>
    decreases |fs|
  {
    if fs == [] then touched
    else if fs[0].file.None? then TouchedAfterAll(was, fs[1..], touched)
    else TouchedAfterAll(fs[0].file.value, fs[1..], TouchedAfter(was, fs[0].file.value, touched))
  }

  /** The file makes the process a server or a client and has the block for it.  Any other file ends the instance, and
      the restart after it ends the run loop. */
  ghost predicate Runnable(args: Args, config: Config) {
    && WellNamed(config)
    && match DetermineRunMode(config, args)
       case RunServer => config.server.Some?
       case RunClient => config.client.Some?
       case Undetermined => false
  }

  /** The files the reload theorems are about are exactly the well-named ones from which an instance starts. */
  lemma RunnableExactlyIfItStarts(sha: Sha, args: Args, config: Config, o: Orders)
    requires config.server.Some? ==> Enumerates(o.newServer, config.server.value.services.Keys)
    ensures Runnable(args, config) <==> WellNamed(config) && Boot(sha, args, config, o).instance != Down
  {
  }

  ghost predicate ServerNamesWithin(config: Config, universe: set<Bytes>) {
    config.server.Some? ==> config.server.value.services.Keys <= universe
  }

  ghost predicate RunsAsServer(args: Args, config: Config) {
    DetermineRunMode(config, args).RunServer? && Runnable(args, config)
  }

  /** The instance is a server whose table is exactly `Listed`. */
  ghost predicate ServerHolds(sha: Sha, w: World, touched: set<Bytes>) {
    && w.instance.ServerUp? && w.config.server.Some?
    && Represents(sha, w.instance.view.services, Listed(w.config.server.value.services, touched))
  }

  ghost function ReloadedAll(sha: Sha, v: View, changes: seq<ServiceChange<ServerService>>): View
    decreases |changes|
  {
    if changes == [] then v else ReloadedAll(sha, Reloaded(sha, v, changes[0]), changes[1..])
  }

  lemma {:induction false} OnEventsConcat(sha: Sha, args: Args, i: Instance, a: seq<ConfigChange>, b: seq<ConfigChange>,
                                          o: Orders)
    ensures OnEvents(sha, args, i, a + b, o) == OnEvents(sha, args, OnEvents(sha, args, i, a, o), b, o)
    decreases |a|
  {
    if a == [] {
      assert a + b == b;
    } else {
      OnEventsConcat(sha, args, OnEvent(sha, args, i, a[0], o), a[1..], b, o);
      assert (a + b)[1..] == a[1..] + b;
    }
  }

  lemma {:induction false} ServerReplays(sha: Sha, args: Args, v: View, changes: seq<ServiceChange<ServerService>>,
                                         o: Orders)
    ensures OnEvents(sha, args, ServerUp(v), AsServerChanges(changes), o) == ServerUp(ReloadedAll(sha, v, changes))
    decreases |changes|
  {
    if changes == [] {
    } else {
      ServerReplays(sha, args, Reloaded(sha, v, changes[0]), changes[1..], o);
      assert AsServerChanges(changes)[1..] == AsServerChanges(changes[1..]);
    }
  }

  lemma {:induction false} ServerIgnoresClient(sha: Sha, args: Args, v: View,
                                               changes: seq<ServiceChange<ClientService>>, o: Orders)
    ensures OnEvents(sha, args, ServerUp(v), AsClientChanges(changes), o) == ServerUp(v)
    decreases |changes|
  {
    if changes == [] {
    } else {
      ServerIgnoresClient(sha, args, v, changes[1..], o);
      assert AsClientChanges(changes)[1..] == AsClientChanges(changes[1..]);
    }
  }

  /** A running server sees exactly the service events of its own block, or is started afresh. */
  lemma ServerEventsSeen(sha: Sha, args: Args, v: View, was: Config, now: Config, o: Orders)
    requires was.server.Some? && !NeedsRestart(was, now)
    ensures var w', n' := was.server.value.services, now.server.value.services;
      OnEvents(sha, args, ServerUp(v), CalculateEvents(was, now, o), o)
        == ServerUp(if was.server == now.server then v
                    else ReloadedAll(sha, v, ServiceEvents(w', n', o.oldServer, o.newServer)))
  {
    if was != now {
      var cs := ServiceEvents(was.server.value.services, now.server.value.services, o.oldServer, o.newServer);
      var ds := if was.client.None? then []
                else ServiceEvents(was.client.value.services, now.client.value.services, o.oldClient, o.newClient);
      var server := if was.server != now.server then AsServerChanges(cs) else [];
      var client := if was.client != now.client then AsClientChanges(ds) else [];
      assert CalculateEvents(was, now, o) == server + client;
      OnEventsConcat(sha, args, ServerUp(v), server, client, o);
      ServerReplays(sha, args, v, cs, o);
      ServerIgnoresClient(sha, args, v, ds, o);
      ServerIgnoresClient(sha, args, ReloadedAll(sha, v, cs), ds, o);
    }
  }

  /** Every event of a diff names a service that was added, changed or deleted. */
  lemma {:induction false} EventNames(was: ServerServices, now: ServerServices,
                                      oldOrder: seq<Bytes>, newOrder: seq<Bytes>)
    requires forall n :: n in now ==> now[n].name == n
    ensures forall x :: x in ServiceEvents(was, now, oldOrder, newOrder) ==>
      var n := ChangedName(x);
      || (x.Delete? && n in oldOrder && n !in now)
      || (x.Add? && n in newOrder && Changed(was, now, n) && x.service == now[n])
    ensures forall n :: n in oldOrder && n !in now ==> Delete(n) in ServiceEvents(was, now, oldOrder, newOrder)
    ensures forall n :: n in newOrder && Changed(was, now, n) ==>
      Add(now[n]) in ServiceEvents(was, now, oldOrder, newOrder)
    decreases |oldOrder| + |newOrder|
  {
    if oldOrder == [] && newOrder == [] {
    } else if oldOrder != [] {
      EventNames(was, now, oldOrder[1..], newOrder);
    } else {
      EventNames(was, now, oldOrder, newOrder[1..]);
    }
  }

  lemma {:induction false} ReloadedAllRepresents(sha: Sha, universe: set<Bytes>, v: View, names: ServerServices,
                                                 changes: seq<ServiceChange<ServerService>>)
    requires CollisionFree(sha, universe) && NamesWithin(names, universe)
    requires forall x :: x in changes ==> ChangedName(x) in universe
    requires Represents(sha, v.services, names)
    ensures Represents(sha, ReloadedAll(sha, v, changes).services, AfterAll(names, changes, ServerKey()))
    decreases |changes|
  {
    if changes == [] {
    } else {
      assert changes[0] in changes;
      RepresentsAfter(sha, universe, v.services, names, changes[0]);
      ReloadedAllRepresents(sha, universe, Reloaded(sha, v, changes[0]), After(names, changes[0], ServerKey()),
                            changes[1..]);
    }
  }

  lemma ListedAfterReplay(was: ServerServices, now: ServerServices, touched: set<Bytes>,
                          oldOrder: seq<Bytes>, newOrder: seq<Bytes>)
    requires Enumerates(oldOrder, was.Keys) && Enumerates(newOrder, now.Keys)
    requires forall n :: n in now ==> now[n].name == n
    ensures AfterAll(Listed(was, touched), ServiceEvents(was, now, oldOrder, newOrder), ServerKey())
         == Listed(now, TouchedByReload(was, now, touched))
  {
    var key := ServerKey();
    var m := Listed(was, touched);
    var r := AfterAll(m, ServiceEvents(was, now, oldOrder, newOrder), key);
    var touched' := TouchedByReload(was, now, touched);
    ReplayEffect(m, was, now, oldOrder, newOrder, key);
    forall k
      ensures k in r <==> k in now && (now[k].IsEnabled() || k in touched')
      ensures k in r ==> r[k] == now[k]
    {
      if Changed(was, now, k) {
        assert Puts(was, now, key, k, k);
      } else {
        assert Spared(was, now, key, newOrder, k);
        assert !(k in was && k !in now) ==> SameAt(r, m, k);
      }
    }
    assert r == Listed(now, touched');
  }

  /** A General event leaves a server whose table holds the enabled services of the file. */
  lemma FreshServer(sha: Sha, args: Args, universe: set<Bytes>, i: Instance, config: Config, o: Orders)
    requires CollisionFree(sha, universe) && RunsAsServer(args, config) && ServerNamesWithin(config, universe)
    requires Enumerates(o.newServer, config.server.value.services.Keys)
    requires !i.Down? && !i.Exited?
    ensures ServerHolds(sha, World(config, OnEvent(sha, args, i, General(config), o)), {})
  {
    var services := config.server.value.services;
    FreshTableHoldsEnabled(sha, services, o.newServer);
    assert EnabledAmong(services, o.newServer) == Listed(services, {});
  }

  lemma ServerHoldsAfterReload(sha: Sha, args: Args, universe: set<Bytes>, w: World, touched: set<Bytes>, f: FileEvent)
    requires CollisionFree(sha, universe) && RunsAsServer(args, w.config) && ServerHolds(sha, w, touched)
    requires f.file.Some? && RunsAsServer(args, f.file.value) && ValidOrders(w.config, f.file.value, f.orders)
    requires ServerNamesWithin(w.config, universe) && ServerNamesWithin(f.file.value, universe)
    requires touched <= w.config.server.value.services.Keys && !NeedsRestart(w.config, f.file.value)
    ensures ServerHolds(sha, OnFile(sha, args, w, f), TouchedAfter(w.config, f.file.value, touched))
  {
    var was, now, o := w.config, f.file.value, f.orders;
    var ws, ns := was.server.value.services, now.server.value.services;
    ServerEventsSeen(sha, args, w.instance.view, was, now, o);
    if was.server == now.server {
      assert TouchedAfter(was, now, touched) == touched;
    } else {
      EventNames(ws, ns, o.oldServer, o.newServer);
      ReloadedAllRepresents(sha, universe, w.instance.view, Listed(ws, touched),
                            ServiceEvents(ws, ns, o.oldServer, o.newServer));
      ListedAfterReplay(ws, ns, touched, o.oldServer, o.newServer);
    }
  }

  // ---------------------------------------------------------------- restarts and changes of the run mode

  /** A change outside the services becomes one General event. */
  lemma RestartReplaces(sha: Sha, args: Args, i: Instance, was: Config, now: Config, o: Orders)
    requires NeedsRestart(was, now)
    ensures OnEvents(sha, args, i, CalculateEvents(was, now, o), o) == OnEvent(sha, args, i, General(now), o)
  {
    assert CalculateEvents(was, now, o) == [General(now)];
    var fresh' := OnEvent(sha, args, i, General(now), o);
    assert OnEvents(sha, args, fresh', [General(now)][1..], o) == fresh';
  }

  /** Without a restart a server stays a server and a client stays a client. */
  lemma {:induction false} ReloadKeepsMode(sha: Sha, args: Args, i: Instance, es: seq<ConfigChange>, o: Orders)
    requires (i.ServerUp? || i.ClientUp?) && forall e :: e in es ==> !e.General?
    ensures var j := OnEvents(sha, args, i, es, o); (i.ServerUp? <==> j.ServerUp?) && (i.ClientUp? <==> j.ClientUp?)
    decreases |es|
  {
    if es == [] {
    } else {
      assert es[0] in es;
      ReloadKeepsMode(sha, args, OnEvent(sha, args, i, es[0], o), es[1..], o);
    }
  }

  lemma OtherModeKept(sha: Sha, args: Args, i: Instance, was: Config, now: Config, o: Orders)
    requires (i.ServerUp? || i.ClientUp?) && !NeedsRestart(was, now)
    ensures var j := OnEvents(sha, args, i, CalculateEvents(was, now, o), o);
      (i.ServerUp? <==> j.ServerUp?) && (i.ClientUp? <==> j.ClientUp?)
    ensures DetermineRunMode(was, args) == DetermineRunMode(now, args)
  {
    assert forall e :: e in CalculateEvents(was, now, o) ==> !e.General?;
    ReloadKeepsMode(sha, args, i, CalculateEvents(was, now, o), o);
  }

  /** A server holds exactly the listed services; in client mode a client is running. */
  ghost predicate Follows(sha: Sha, args: Args, w: World, touched: set<Bytes>) {
    if DetermineRunMode(w.config, args).RunServer?
    then ServerHolds(sha, w, touched) && touched <= w.config.server.value.services.Keys
    else w.instance.ClientUp?
  }

  lemma FollowsAfterFile(sha: Sha, args: Args, universe: set<Bytes>, w: World, touched: set<Bytes>, f: FileEvent)
    requires CollisionFree(sha, universe) && Runnable(args, w.config) && Follows(sha, args, w, touched)
    requires f.file.Some? && Runnable(args, f.file.value) && ValidOrders(w.config, f.file.value, f.orders)
    requires ServerNamesWithin(w.config, universe) && ServerNamesWithin(f.file.value, universe)
    ensures Follows(sha, args, OnFile(sha, args, w, f), TouchedAfter(w.config, f.file.value, touched))
  {
    var was, now, o := w.config, f.file.value, f.orders;
    if NeedsRestart(was, now) {
      RestartReplaces(sha, args, w.instance, was, now, o);
      if RunsAsServer(args, now) {
        FreshServer(sha, args, universe, w.instance, now, o);
      }
    } else {
      OtherModeKept(sha, args, w.instance, was, now, o);
      if RunsAsServer(args, now) {
        ServerHoldsAfterReload(sha, args, universe, w, touched, f);
      }
    }
  }

  /** The orders met by each file are enumerations of the maps being iterated. */
  ghost predicate OrdersFit(was: Config, fs: seq<FileEvent>)
    decreases |fs|
  {
    if fs == [] then true
    else if fs[0].file.None? then OrdersFit(was, fs[1..])
    else ValidOrders(was, fs[0].file.value, fs[0].orders) && OrdersFit(fs[0].file.value, fs[1..])
  }

  ghost predicate AllRunnable(args: Args, fs: seq<FileEvent>, universe: set<Bytes>) {
    forall f :: f in fs && f.file.Some? ==> Runnable(args, f.file.value) && ServerNamesWithin(f.file.value, universe)
  }

  lemma {:induction false} FollowsFiles(sha: Sha, args: Args, universe: set<Bytes>, w: World, touched: set<Bytes>,
                                        fs: seq<FileEvent>)
    requires CollisionFree(sha, universe) && Runnable(args, w.config) && ServerNamesWithin(w.config, universe)
    requires Follows(sha, args, w, touched) && AllRunnable(args, fs, universe) && OrdersFit(w.config, fs)
    ensures Follows(sha, args, OnFiles(sha, args, w, fs), TouchedAfterAll(w.config, fs, touched))
    ensures var last := OnFiles(sha, args, w, fs).config; Runnable(args, last) && ServerNamesWithin(last, universe)
    decreases |fs|
  {
    if fs == [] {
    } else {
      var f := fs[0];
      assert f in fs;
      if f.file.Some? {
        FollowsAfterFile(sha, args, universe, w, touched, f);
        FollowsFiles(sha, args, universe, OnFile(sha, args, w, f), TouchedAfter(w.config, f.file.value, touched),
                     fs[1..]);
      } else {
        FollowsFiles(sha, args, universe, w, touched, fs[1..]);
      }
    }
  }

  lemma ListedExactlyEnabled(services: ServerServices, touched: set<Bytes>)
    ensures Listed(services, touched) == Listed(services, {})
       <==> forall n :: n in touched && n in services ==> services[n].IsEnabled()
  {
    if n :| n in touched && n in services && !services[n].IsEnabled() {
      assert n in Listed(services, touched) && n !in Listed(services, {});
    } else {
      assert Listed(services, touched) == Listed(services, {});
    }
  }

  lemma FreshExactlyWithoutTouchedDisabled(sha: Sha, universe: set<Bytes>, table: map<Digest, ServerService>,
                                           services: ServerServices, touched: set<Bytes>, order: seq<Bytes>)
    requires CollisionFree(sha, universe) && services.Keys <= universe && Enumerates(order, services.Keys)
    requires Represents(sha, table, Listed(services, touched))
    ensures table == FreshTable(sha, services, order)
       <==> forall n :: n in touched && n in services ==> services[n].IsEnabled()
  {
    FreshTableHoldsEnabled(sha, services, order);
    assert EnabledAmong(services, order) == Listed(services, {});
    RepresentsExactly(sha, universe, table, Listed(services, touched), FreshTable(sha, services, order),
                      Listed(services, {}));
    ListedExactlyEnabled(services, touched);
  }

  /** Hot reload equals restart: after any sequence of files that ends in server mode, invalid ones skipped and for
      every iteration order of the maps, the server's table equals one built afresh from the last valid file exactly
      when no service that a reload has added or changed since the last restart is disabled in that file. */
  lemma HotReloadEqualsRestart(sha: Sha, args: Args, universe: set<Bytes>, origin: Config, o: Orders,
                               fs: seq<FileEvent>, w: World, order: seq<Bytes>)
    requires CollisionFree(sha, universe) && Runnable(args, origin) && ServerNamesWithin(origin, universe)
    requires origin.server.Some? ==> Enumerates(o.newServer, origin.server.value.services.Keys)
    requires AllRunnable(args, fs, universe) && OrdersFit(origin, fs)
    requires w == OnFiles(sha, args, Boot(sha, args, origin, o), fs) && DetermineRunMode(w.config, args).RunServer?
    requires w.config.server.Some? && Enumerates(order, w.config.server.value.services.Keys)
    ensures w.instance.ServerUp?
    ensures var last := w.config.server.value.services;
      w.instance.view.services == FreshTable(sha, last, order)
      <==> (forall n :: n in TouchedAfterAll(origin, fs, {}) && n in last ==> last[n].IsEnabled())
  {
    if RunsAsServer(args, origin) {
      FreshServer(sha, args, universe, NotStarted, origin, o);
    }
    FollowsFiles(sha, args, universe, Boot(sha, args, origin, o), {}, fs);
    FreshExactlyWithoutTouchedDisabled(sha, universe, w.instance.view.services, w.config.server.value.services,
                                       TouchedAfterAll(origin, fs, {}), order);
  }

  /** Without that condition the equality fails: adding a disabled service to the file lists it in a running server,
      while a server started from the same file does not have it. */
  lemma DisabledServiceIsListedByReload(sha: Sha)
    returns (args: Args, origin: Config, o: Orders, f: FileEvent, w: World, order: seq<Bytes>)
    ensures w == OnFiles(sha, args, Boot(sha, args, origin, o), [f]) && w.instance.ServerUp? && w.config.server.Some?
    ensures WellNamed(w.config) && ServerAccepted(w.config.server.value)
    ensures Enumerates(order, w.config.server.value.services.Keys)
    ensures w.instance.view.services != FreshTable(sha, w.config.server.value.services, order)
  {
    var service := ServerService([1], Tcp, Some(false), None, None, None, None, []);
    args, order := Args(false, true), [[1]];
    origin := Config(Some(ServerConfig(map[], [])), None);
    var config := Config(Some(ServerConfig(map[[1] := service], [])), None);
    o := Orders([], [], [], []);
    f := FileEvent(Some(config), Orders([], order, [], []));
    w := OnFiles(sha, args, Boot(sha, args, origin, o), [f]);
    assert OnFiles(sha, args, OnFile(sha, args, Boot(sha, args, origin, o), f), [f][1..]).config == config;
    assert [1] in order && Changed(map[], map[[1] := service], [1]);
    assert TouchedAfterAll(config, [f][1..], {[1]}) == {[1]};
    assert TouchedAfter(origin, config, {}) == {[1]};
    HotReloadEqualsRestart(sha, args, {[1]}, origin, o, [f], w, order);
  }

  // ---------------------------------------------------------------- which control channels survive

  lemma {:induction false} ChannelsAfterReplay(sha: Sha, v: View, changes: seq<ServiceChange<ServerService>>)
    ensures ReloadedAll(sha, v, changes).channels
         == set x | x in v.channels && forall e :: e in changes ==> sha(ChangedName(e)) != x.k1
    decreases |changes|
  {
    if changes == [] {
    } else {
      ChannelsAfterReplay(sha, Reloaded(sha, v, changes[0]), changes[1..]);
      assert changes == [changes[0]] + changes[1..];
    }
  }

  ghost predicate Affected(was: ServerServices, now: ServerServices, n: Bytes) {
    Changed(was, now, n) || (n in was && n !in now)
  }

  /** One reload drops exactly the control channels of services added, changed or deleted; every other channel keeps
      its entry under both keys. */
  lemma ReloadDropsExactlyAffectedChannels(sha: Sha, v: View, was: ServerServices, now: ServerServices,
                                           oldOrder: seq<Bytes>, newOrder: seq<Bytes>)
    requires Enumerates(oldOrder, was.Keys) && Enumerates(newOrder, now.Keys)
    requires forall n :: n in now ==> now[n].name == n
    ensures ReloadedAll(sha, v, ServiceEvents(was, now, oldOrder, newOrder)).channels
         == set x | x in v.channels && forall n :: Affected(was, now, n) ==> sha(n) != x.k1
  {
    var events := ServiceEvents(was, now, oldOrder, newOrder);
    ChannelsAfterReplay(sha, v, events);
    EventNames(was, now, oldOrder, newOrder);
    forall n | Affected(was, now, n)
      ensures exists e :: e in events && ChangedName(e) == n
    {
      var e := if n in now then Add(now[n]) else Delete(n);
      assert e in events && ChangedName(e) == n;
    }
  }
}
