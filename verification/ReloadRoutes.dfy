/** Virtual-host routes under hot reload. */
module ReloadRoutes {
  import opened Basics
  import opened Configs
  import opened ConfigDiff
  import opened Ranking
  import opened Router
  import opened Servers
  import opened HotReload

  /** The routes registered for one service. */
  function RoutesFor(routes: seq<HttpRoute>, n: Bytes): seq<HttpRoute> {
    if routes == [] then []
    else (if routes[0].serviceName == n then [routes[0]] else []) + RoutesFor(routes[1..], n)
  }

  function ExpectedRoutes(names: ServerServices, n: Bytes): seq<HttpRoute> {
    if n in names && names[n].IsHttp() then [RouteOf(names[n])] else []
  }

  /** Exactly one route, with the current settings, per HTTP(S) service of the table, and no other route. */
  ghost predicate RoutesExact(routes: seq<HttpRoute>, names: ServerServices) {
    forall n :: RoutesFor(routes, n) == ExpectedRoutes(names, n)
  }

  lemma {:induction false} RoutesForConcat(a: seq<HttpRoute>, b: seq<HttpRoute>, n: Bytes)
    ensures RoutesFor(a + b, n) == RoutesFor(a, n) + RoutesFor(b, n)
  {
    if a == [] {
      assert a + b == b;
    } else {
      assert (a + b)[0] == a[0] && (a + b)[1..] == a[1..] + b;
      RoutesForConcat(a[1..], b, n);
    }
  }

  lemma {:induction false} RoutesForWithout(routes: seq<HttpRoute>, m: Bytes, n: Bytes)
    ensures RoutesFor(WithoutService(routes, m), n) == if n == m then [] else RoutesFor(routes, n)
  {
    if routes == [] {
    } else {
      RoutesForWithout(routes[1..], m, n);
      if routes[0].serviceName != m {
        RoutesForConcat([routes[0]], WithoutService(routes[1..], m), n);
        assert RoutesFor([routes[0]][1..], n) == [];
      }
    }
  }

  /** What one service change does to the routes of every service. */
  lemma RoutesForAfter(routes: seq<HttpRoute>, change: ServiceChange<ServerService>, n: Bytes)
    ensures RoutesFor(RoutesAfter(routes, change), n)
         == match change
            case Add(c) => if c.IsHttp() && n == c.name then [RouteOf(c)] else RoutesFor(routes, n)
            case Delete(m) => if n == m then [] else RoutesFor(routes, n)
  {
    match change {
      case Add(c) =>
        RoutesForWithout(routes, c.name, n);
        RoutesForConcat(WithoutService(routes, c.name), [RouteOf(c)], n);
        assert RoutesFor([RouteOf(c)][1..], n) == [];
      case Delete(m) => RoutesForWithout(routes, m, n);
    }
  }

  /** The change turns a listed HTTP(S) service into another kind without deleting it first. */
  predicate DropsHttp(names: ServerServices, change: ServiceChange<ServerService>) {
    change.Add? && !change.service.IsHttp() && change.service.name in names && names[change.service.name].IsHttp()
  }

  /** A service change keeps the routes exact exactly when it does not turn an HTTP(S) service into another kind: that
      service's old route stays behind. */
  lemma RoutesStayExactExactlyIfHttpKept(routes: seq<HttpRoute>, names: ServerServices,
                                         change: ServiceChange<ServerService>)
    requires RoutesExact(routes, names)
    ensures RoutesExact(RoutesAfter(routes, change), After(names, change, ServerKey())) <==> !DropsHttp(names, change)
  {
    var routes', names' := RoutesAfter(routes, change), After(names, change, ServerKey());
    if DropsHttp(names, change) {
      var n := change.service.name;
      assert RoutesFor(routes', n) == RoutesFor(routes, n) == [RouteOf(names[n])] != ExpectedRoutes(names', n);
    } else {
      forall n ensures RoutesFor(routes', n) == ExpectedRoutes(names', n) {
        RoutesForAfter(routes, change, n);
      }
    }
  }

  // ---------------------------------------------------------------- one reload

  lemma {:induction false} RoutesForDeletions(sha: Sha, v: View, now: ServerServices, order: seq<Bytes>, n: Bytes)
    ensures RoutesFor(ReloadedAll(sha, v, Deletions(now, order)).routes, n)
         == if n in order && n !in now then [] else RoutesFor(v.routes, n)
    decreases |order|
  {
    if order == [] {
    } else {
      if order[0] in now {
        assert Deletions(now, order) == Deletions(now, order[1..]);
        RoutesForDeletions(sha, v, now, order[1..], n);
      } else {
        var d := Delete(order[0]);
        assert Deletions(now, order)[1..] == Deletions(now, order[1..]);
        RoutesForAfter(v.routes, d, n);
        RoutesForDeletions(sha, Reloaded(sha, v, d), now, order[1..], n);
      }
    }
  }

  lemma {:induction false} RoutesForAdditions(sha: Sha, v: View, was: ServerServices,
                                              now: ServerServices, order: seq<Bytes>, n: Bytes)
    requires forall m :: m in now ==> now[m].name == m
    ensures RoutesFor(ReloadedAll(sha, v, Additions(was, now, order)).routes, n)
         == if n in order && Changed(was, now, n) && now[n].IsHttp() then [RouteOf(now[n])] else RoutesFor(v.routes, n)
    decreases |order|
  {
    if order == [] {
    } else {
      if Changed(was, now, order[0]) {
        var a := Add(now[order[0]]);
        assert Additions(was, now, order)[1..] == Additions(was, now, order[1..]);
        RoutesForAfter(v.routes, a, n);
        RoutesForAdditions(sha, Reloaded(sha, v, a), was, now, order[1..], n);
      } else {
        assert Additions(was, now, order) == Additions(was, now, order[1..]);
        RoutesForAdditions(sha, v, was, now, order[1..], n);
      }
    }
  }

  lemma {:induction false} ReloadedAllConcat(sha: Sha, v: View, a: seq<ServiceChange<ServerService>>,
                                             b: seq<ServiceChange<ServerService>>)
    ensures ReloadedAll(sha, v, a + b) == ReloadedAll(sha, ReloadedAll(sha, v, a), b)
    decreases |a|
  {
    if a == [] {
      assert a + b == b;
    } else {
      var v' := Reloaded(sha, v, a[0]);
      assert (a + b)[0] == a[0] && (a + b)[1..] == a[1..] + b;
      assert ReloadedAll(sha, v, a + b) == ReloadedAll(sha, v', a[1..] + b);
      ReloadedAllConcat(sha, v', a[1..], b);
    }
  }

  /** What one reload does to the routes of each service, for every iteration order: a changed HTTP(S) service gets its
      new route, a deleted one loses its route, every other service keeps the routes it had. */
  lemma RoutesForReload(sha: Sha, v: View, was: ServerServices, now: ServerServices,
                        oldOrder: seq<Bytes>, newOrder: seq<Bytes>, n: Bytes)
    requires Enumerates(oldOrder, was.Keys) && Enumerates(newOrder, now.Keys)
    requires forall m :: m in now ==> now[m].name == m
    ensures RoutesFor(ReloadedAll(sha, v, ServiceEvents(was, now, oldOrder, newOrder)).routes, n)
         == if Changed(was, now, n) && now[n].IsHttp() then [RouteOf(now[n])]
            else if n in was && n !in now then []
            else RoutesFor(v.routes, n)
  {
    var ds, xs := Deletions(now, oldOrder), Additions(was, now, newOrder);
    ReloadedAllConcat(sha, v, ds, xs);
    RoutesForDeletions(sha, v, now, oldOrder, n);
    RoutesForAdditions(sha, ReloadedAll(sha, v, ds), was, now, newOrder, n);
  }

  // ---------------------------------------------------------------- routes left behind

  /** Routes left behind by services that stopped being HTTP(S), by the name of the service. */
  type Strays = map<Bytes, HttpRoute>

  ghost predicate StraysListed(names: ServerServices, strays: Strays) {
    forall n :: n in strays ==> n in names && !names[n].IsHttp()
  }

  function RoutesWith(names: ServerServices, strays: Strays, n: Bytes): seq<HttpRoute> {
    if n in strays then [strays[n]] else ExpectedRoutes(names, n)
  }

  /** Listed services have exactly their routes, except that each stray still has the route that was left behind. */
  ghost predicate RoutesAre(routes: seq<HttpRoute>, names: ServerServices, strays: Strays) {
    StraysListed(names, strays) && forall n :: RoutesFor(routes, n) == RoutesWith(names, strays, n)
  }

  lemma ExactExactlyWithoutStrays(routes: seq<HttpRoute>, names: ServerServices, strays: Strays)
    requires RoutesAre(routes, names, strays)
    ensures RoutesExact(routes, names) <==> strays == map[]
  {
    if strays != map[] {
      var n :| n in strays;
      assert RoutesFor(routes, n) != ExpectedRoutes(names, n);
    }
  }

  /** A service leaves its route behind in a reload when it was listed as HTTP(S) and is now in the file as another
      kind; the route stays as long as the service is in the file as another kind. */
  function StraysAfterReload(was: ServerServices, now: ServerServices, touched: set<Bytes>,
                             strays: Strays): Strays
  {
    map n | n in now && !now[n].IsHttp() && (n in strays || (n in Listed(was, touched) && was[n].IsHttp()))
      :: if n in strays then strays[n] else RouteOf(was[n])
  }

  /** The account of one service's routes before a reload becomes the account after it. */
  lemma AccountAfterReload(was: ServerServices, now: ServerServices, touched: set<Bytes>,
                           strays: Strays, n: Bytes)
    requires StraysListed(Listed(was, touched), strays)
    ensures RoutesWith(Listed(now, TouchedByReload(was, now, touched)), StraysAfterReload(was, now, touched, strays), n)
         == if Changed(was, now, n) && now[n].IsHttp() then [RouteOf(now[n])]
            else if n in was && n !in now then []
            else RoutesWith(Listed(was, touched), strays, n)
  {
  }

  /** The routes after one reload, strays included. */
  lemma ReloadKeepsRoutes(sha: Sha, v: View, was: ServerServices, now: ServerServices,
                          touched: set<Bytes>, strays: Strays, oldOrder: seq<Bytes>, newOrder: seq<Bytes>)
    requires RoutesAre(v.routes, Listed(was, touched), strays)
    requires Enumerates(oldOrder, was.Keys) && Enumerates(newOrder, now.Keys)
    requires forall n :: n in now ==> now[n].name == n
    ensures RoutesAre(ReloadedAll(sha, v, ServiceEvents(was, now, oldOrder, newOrder)).routes,
                      Listed(now, TouchedByReload(was, now, touched)), StraysAfterReload(was, now, touched, strays))
  {
    var routes := ReloadedAll(sha, v, ServiceEvents(was, now, oldOrder, newOrder)).routes;
    var names, strays' := Listed(now, TouchedByReload(was, now, touched)), StraysAfterReload(was, now, touched, strays);
    forall n | n in strays' ensures n in names && !names[n].IsHttp() {
      assert n in Listed(was, touched);
    }
    forall n ensures RoutesFor(routes, n) == RoutesWith(names, strays', n) {
      RoutesForReload(sha, v, was, now, oldOrder, newOrder, n);
      AccountAfterReload(was, now, touched, strays, n);
    }
  }

  /** One reload keeps exactly one route per listed HTTP(S) service if and only if no service listed as HTTP(S) is in
      the new file as another kind. */
  lemma ReloadKeepsRoutesExactly(sha: Sha, v: View, was: ServerServices, now: ServerServices,
                                 touched: set<Bytes>, oldOrder: seq<Bytes>, newOrder: seq<Bytes>)
    requires RoutesExact(v.routes, Listed(was, touched))
    requires Enumerates(oldOrder, was.Keys) && Enumerates(newOrder, now.Keys)
    requires forall n :: n in now ==> now[n].name == n
    ensures RoutesExact(ReloadedAll(sha, v, ServiceEvents(was, now, oldOrder, newOrder)).routes,
                        Listed(now, TouchedByReload(was, now, touched)))
       <==> forall n :: n in Listed(was, touched) && was[n].IsHttp() && n in now ==> now[n].IsHttp()
  {
    var strays := StraysAfterReload(was, now, touched, map[]);
    ReloadKeepsRoutes(sha, v, was, now, touched, map[], oldOrder, newOrder);
    ExactExactlyWithoutStrays(ReloadedAll(sha, v, ServiceEvents(was, now, oldOrder, newOrder)).routes,
                              Listed(now, TouchedByReload(was, now, touched)), strays);
    if n :| n in Listed(was, touched) && was[n].IsHttp() && n in now && !now[n].IsHttp() {
      assert n in strays;
    } else {
      assert strays == map[];
    }
  }

  // ---------------------------------------------------------------- every reachable state

  lemma PushRoute(routes: seq<HttpRoute>, names: ServerServices, c: ServerService)
    requires RoutesExact(routes, names) && c.name !in names
    ensures RoutesExact(if c.IsHttp() then routes + [RouteOf(c)] else routes, names[c.name := c])
  {
    var routes' := if c.IsHttp() then routes + [RouteOf(c)] else routes;
    forall n ensures RoutesFor(routes', n) == ExpectedRoutes(names[c.name := c], n) {
      assert RoutesFor(routes, n) == ExpectedRoutes(names, n);
      RoutesForConcat(routes, [RouteOf(c)], n);
      assert RoutesFor([RouteOf(c)][1..], n) == [];
    }
  }

  lemma {:induction false} FreshRoutesExact(services: ServerServices, order: seq<Bytes>)
    requires forall n :: n in order ==> n in services && services[n].name == n
    requires Distinct(order)
    ensures RoutesExact(FreshRoutes(services, order), EnabledAmong(services, order))
  {
    if order == [] {
    } else {
      var init, last := order[..|order| - 1], order[|order| - 1];
      assert order == init + [last];
      FreshRoutesExact(services, init);
      EnabledAmongGrows(services, init, last);
      if services[last].IsEnabled() {
        PushRoute(FreshRoutes(services, init), EnabledAmong(services, init), services[last]);
      }
    }
  }

  lemma FreshServerRoutes(sha: Sha, args: Args, i: Instance, config: Config, o: Orders)
    requires RunsAsServer(args, config) && Enumerates(o.newServer, config.server.value.services.Keys)
    requires !i.Down? && !i.Exited?
    ensures ServerRoutesAre(World(config, OnEvent(sha, args, i, General(config), o)), {}, map[])
  {
    var services := config.server.value.services;
    FreshRoutesExact(services, o.newServer);
    assert EnabledAmong(services, o.newServer) == Listed(services, {});
  }

  ghost predicate ServerRoutesAre(w: World, touched: set<Bytes>, strays: Strays) {
    w.instance.ServerUp? && w.config.server.Some?
    && RoutesAre(w.instance.view.routes, Listed(w.config.server.value.services, touched), strays)
  }

  /** The strays after one more file: a restart clears them. */
  function StraysAfter(was: Config, now: Config, touched: set<Bytes>, strays: Strays): Strays {
    if now.server.None? || NeedsRestart(was, now) then map[]
    else if was.server == now.server then strays
    else StraysAfterReload(was.server.value.services, now.server.value.services, touched, strays)
  }

  function StraysAfterAll(was: Config, fs: seq<FileEvent>, touched: set<Bytes>, strays: Strays): Strays
    decreases |fs|
  {
    if fs == [] then strays
    else if fs[0].file.None? then StraysAfterAll(was, fs[1..], touched, strays)
    else
      var now := fs[0].file.value;
      StraysAfterAll(now, fs[1..], TouchedAfter(was, now, touched), StraysAfter(was, now, touched, strays))
  }

  /** A server has the routes of the listed services and the strays; in client mode a client is running. */
  ghost predicate RoutesFollow(args: Args, w: World, touched: set<Bytes>, strays: Strays) {
    if DetermineRunMode(w.config, args).RunServer?
    then ServerRoutesAre(w, touched, strays) && touched <= w.config.server.value.services.Keys
    else w.instance.ClientUp?
  }

  lemma RoutesAfterReload(sha: Sha, args: Args, w: World, touched: set<Bytes>, strays: Strays, f: FileEvent)
    requires RunsAsServer(args, w.config) && ServerRoutesAre(w, touched, strays)
    requires touched <= w.config.server.value.services.Keys
    requires f.file.Some? && RunsAsServer(args, f.file.value) && ValidOrders(w.config, f.file.value, f.orders)
    requires !NeedsRestart(w.config, f.file.value)
    ensures ServerRoutesAre(OnFile(sha, args, w, f), TouchedAfter(w.config, f.file.value, touched),
                            StraysAfter(w.config, f.file.value, touched, strays))
  {
    var was, now, o := w.config, f.file.value, f.orders;
    ServerEventsSeen(sha, args, w.instance.view, was, now, o);
    if was.server == now.server {
      assert TouchedAfter(was, now, touched) == touched;
    } else {
      ReloadKeepsRoutes(sha, w.instance.view, was.server.value.services, now.server.value.services, touched, strays,
                        o.oldServer, o.newServer);
    }
  }

  lemma RoutesFollowFile(sha: Sha, args: Args, w: World, touched: set<Bytes>, strays: Strays, f: FileEvent)
    requires Runnable(args, w.config) && RoutesFollow(args, w, touched, strays)
    requires f.file.Some? && Runnable(args, f.file.value) && ValidOrders(w.config, f.file.value, f.orders)
    ensures RoutesFollow(args, OnFile(sha, args, w, f), TouchedAfter(w.config, f.file.value, touched),
                         StraysAfter(w.config, f.file.value, touched, strays))
  {
    var was, now, o := w.config, f.file.value, f.orders;
    if NeedsRestart(was, now) {
      RestartReplaces(sha, args, w.instance, was, now, o);
      if RunsAsServer(args, now) {
        FreshServerRoutes(sha, args, w.instance, now, o);
      }
    } else {
      OtherModeKept(sha, args, w.instance, was, now, o);
      if RunsAsServer(args, now) {
        RoutesAfterReload(sha, args, w, touched, strays, f);
      }
    }
  }

  /** In every state reached by any sequence of files the routes are those of the listed services and the strays. */
  lemma {:induction false} RoutesFollowFiles(sha: Sha, args: Args, w: World, touched: set<Bytes>, strays: Strays,
                                             fs: seq<FileEvent>)
    requires Runnable(args, w.config) && RoutesFollow(args, w, touched, strays)
    requires forall f :: f in fs && f.file.Some? ==> Runnable(args, f.file.value)
    requires OrdersFit(w.config, fs)
    ensures RoutesFollow(args, OnFiles(sha, args, w, fs), TouchedAfterAll(w.config, fs, touched),
                         StraysAfterAll(w.config, fs, touched, strays))
    decreases |fs|
  {
    if fs == [] {
    } else {
      var f := fs[0];
      assert f in fs;
      if f.file.Some? {
        var now := f.file.value;
        RoutesFollowFile(sha, args, w, touched, strays, f);
        RoutesFollowFiles(sha, args, OnFile(sha, args, w, f), TouchedAfter(w.config, now, touched),
                          StraysAfter(w.config, now, touched, strays), fs[1..]);
      } else {
        RoutesFollowFiles(sha, args, w, touched, strays, fs[1..]);
      }
    }
  }

  /** After any sequence of files that ends in server mode there is exactly one route per listed HTTP(S) service, and no
      other, if and only if no service has left a route behind since the last restart that is still a stray. */
  lemma RoutesExactExactlyWithoutStrays(sha: Sha, args: Args, origin: Config, o: Orders, fs: seq<FileEvent>, w: World)
    requires Runnable(args, origin)
    requires origin.server.Some? ==> Enumerates(o.newServer, origin.server.value.services.Keys)
    requires forall f :: f in fs && f.file.Some? ==> Runnable(args, f.file.value)
    requires OrdersFit(origin, fs)
    requires w == OnFiles(sha, args, Boot(sha, args, origin, o), fs) && DetermineRunMode(w.config, args).RunServer?
    ensures w.instance.ServerUp? && w.config.server.Some?
    ensures RoutesExact(w.instance.view.routes, Listed(w.config.server.value.services, TouchedAfterAll(origin, fs, {})))
       <==> StraysAfterAll(origin, fs, {}, map[]) == map[]
  {
    if RunsAsServer(args, origin) {
      FreshServerRoutes(sha, args, NotStarted, origin, o);
    }
    var touched, strays := TouchedAfterAll(origin, fs, {}), StraysAfterAll(origin, fs, {}, map[]);
    RoutesFollowFiles(sha, args, Boot(sha, args, origin, o), {}, map[], fs);
    ExactExactlyWithoutStrays(w.instance.view.routes, Listed(w.config.server.value.services, touched), strays);
  }

  lemma LeavesRoute(sha: Sha, args: Args, origin: Config, o: Orders, f: FileEvent, n: Bytes)
    requires RunsAsServer(args, origin) && Enumerates(o.newServer, origin.server.value.services.Keys)
    requires f.file.Some? && RunsAsServer(args, f.file.value) && ValidOrders(origin, f.file.value, f.orders)
    requires !NeedsRestart(origin, f.file.value)
    requires var ws, ns := origin.server.value.services, f.file.value.server.value.services;
      n in ws && ws[n].IsEnabled() && ws[n].IsHttp() && n in ns && !ns[n].IsHttp()
    ensures var w := OnFile(sha, args, Boot(sha, args, origin, o), f);
      w.instance.ServerUp? && RoutesFor(w.instance.view.routes, n) == [RouteOf(origin.server.value.services[n])]
  {
    FreshServerRoutes(sha, args, NotStarted, origin, o);
    RoutesAfterReload(sha, args, Boot(sha, args, origin, o), {}, map[], f);
    assert n in StraysAfter(origin, f.file.value, {}, map[]);
  }

  /** For instance, changing a service from HTTP to TCP leaves its route behind. */
  lemma RouteLeftBehind(sha: Sha)
    returns (args: Args, origin: Config, o: Orders, f: FileEvent, w: World, route: HttpRoute)
    ensures w == OnFile(sha, args, Boot(sha, args, origin, o), f) && w.instance.ServerUp? && w.config.server.Some?
    ensures WellNamed(origin) && origin.server.Some? && ServerAccepted(origin.server.value)
    ensures WellNamed(w.config) && ServerAccepted(w.config.server.value)
    ensures forall n :: n in w.config.server.value.services ==> !w.config.server.value.services[n].IsHttp()
    ensures RoutesFor(w.instance.view.routes, [1]) == [route]
  {
    var service := ServerService([1], Http, None, Some([7]), Some([[0x61]]), None, None, []);
    var order: seq<Bytes> := [[1]];
    assert [1] in order;
    args, o, route := Args(false, true), Orders([], order, [], []), RouteOf(service);
    origin := Config(Some(ServerConfig(map[[1] := service], [])), None);
    var config := Config(Some(ServerConfig(map[[1] := service.(kind := Tcp)], [])), None);
    f := FileEvent(Some(config), Orders(order, order, [], []));
    w := OnFile(sha, args, Boot(sha, args, origin, o), f);
    LeavesRoute(sha, args, origin, o, f, [1]);
  }

  // ---------------------------------------------------------------- answers of a reloaded and of a restarted server

  lemma {:induction false} CountedByService(routes: seq<HttpRoute>, r: HttpRoute)
    ensures multiset(routes)[r] == multiset(RoutesFor(routes, r.serviceName))[r]
  {
    if routes == [] {
    } else {
      CountedByService(routes[1..], r);
      assert routes == [routes[0]] + routes[1..];
    }
  }

  /** Two servers with the same routes for each service have the same routes, in some order. */
  lemma SameRoutesPermute(a: seq<HttpRoute>, b: seq<HttpRoute>)
    requires forall n :: RoutesFor(a, n) == RoutesFor(b, n)
    ensures multiset(a) == multiset(b)
  {
    forall r ensures multiset(a)[r] == multiset(b)[r] {
      CountedByService(a, r);
      CountedByService(b, r);
    }
  }

  lemma {:induction false} FreshRoutesConcat(services: ServerServices, a: seq<Bytes>, b: seq<Bytes>)
    requires forall n :: n in a + b ==> n in services
    ensures (forall n :: n in a ==> n in a + b) && (forall n :: n in b ==> n in a + b)
    ensures FreshRoutes(services, a + b) == FreshRoutes(services, a) + FreshRoutes(services, b)
    decreases |b|
  {
    if b == [] {
      assert a + b == a;
    } else {
      var init, last := b[..|b| - 1], b[|b| - 1];
      assert (a + b)[..|a + b| - 1] == a + init && (a + b)[|a + b| - 1] == last;
      FreshRoutesConcat(services, a, init);
    }
  }

  /** Where a fresh route comes from. */
  lemma {:induction false} RouteSource(services: ServerServices, order: seq<Bytes>, r: HttpRoute) returns (k: nat)
    requires (forall n :: n in order ==> n in services) && r in FreshRoutes(services, order)
    ensures k < |order| && FreshRoutes(services, [order[k]]) == [r]
  {
    var init, last := order[..|order| - 1], order[|order| - 1];
    assert order == init + [last];
    FreshRoutesConcat(services, init, [last]);
    if r in FreshRoutes(services, init) {
      k := RouteSource(services, init, r);
    } else {
      k := |order| - 1;
      assert |FreshRoutes(services, [last])| <= 1;
    }
  }

  /** A restart in another order: service `k` of the old order first, or last. */
  lemma Reordered(services: ServerServices, order: seq<Bytes>, k: nat)
    requires Enumerates(order, services.Keys) && k < |order|
    ensures var others := order[..k] + order[k + 1..];
      && Enumerates([order[k]] + others, services.Keys) && Enumerates(others + [order[k]], services.Keys)
      && forall n :: n in others ==> n in services
  {
    assert order == order[..k] + [order[k]] + order[k + 1..];
  }

  lemma OthersAreThere(services: ServerServices, order: seq<Bytes>, k: nat)
    requires Enumerates(order, services.Keys) && k < |order|
    ensures var others := order[..k] + order[k + 1..];
      && (forall n :: n in others ==> n in services)
      && forall x :: x in FreshRoutes(services, others) ==> x in FreshRoutes(services, order)
  {
    var a, n, b := order[..k], [order[k]], order[k + 1..];
    assert order == a + (n + b);
    FreshRoutesConcat(services, n, b);
    FreshRoutesConcat(services, a, n + b);
    FreshRoutesConcat(services, a, b);
  }

  /** Every route that is among the best for a request answers it after a restart in some order. */
  lemma WinsInSomeOrder(services: ServerServices, order: seq<Bytes>, score: HttpRoute -> int, r: HttpRoute)
    returns (order': seq<Bytes>)
    requires Enumerates(order, services.Keys) && Top(FreshRoutes(services, order), score, r)
    ensures Enumerates(order', services.Keys) && Chosen(FreshRoutes(services, order'), score) == Some(r)
  {
    var k := RouteSource(services, order, r);
    var others := order[..k] + order[k + 1..];
    Reordered(services, order, k);
    OthersAreThere(services, order, k);
    if score(r) > 0 {
      order' := [order[k]] + others;
      FreshRoutesConcat(services, [order[k]], others);
      FirstWins(FreshRoutes(services, others), score, r);
    } else {
      order' := others + [order[k]];
      FreshRoutesConcat(services, others, [order[k]]);
      LastWins(FreshRoutes(services, others), score, r);
    }
  }

  lemma FreshRoutesPermute(services: ServerServices, routes: seq<HttpRoute>, order: seq<Bytes>)
    requires RoutesExact(routes, Listed(services, {})) && Enumerates(order, services.Keys)
    requires forall n :: n in services ==> services[n].name == n
    ensures multiset(FreshRoutes(services, order)) == multiset(routes)
  {
    FreshRoutesExact(services, order);
    assert EnabledAmong(services, order) == Listed(services, {});
    forall n ensures RoutesFor(FreshRoutes(services, order), n) == RoutesFor(routes, n) {
      assert RoutesFor(routes, n) == ExpectedRoutes(Listed(services, {}), n);
    }
    SameRoutesPermute(FreshRoutes(services, order), routes);
  }

  ghost predicate AnswersAsRestarted(services: ServerServices, routes: seq<HttpRoute>, q: Query) {
    forall order :: Enumerates(order, services.Keys) ==>
      Chosen(FreshRoutes(services, order), ScoreFor(q)) == Chosen(routes, ScoreFor(q))
  }

  ghost predicate NoTies(routes: seq<HttpRoute>, q: Query) {
    forall r, s :: Top(routes, ScoreFor(q), r) && Top(routes, ScoreFor(q), s) ==> r == s
  }

  /** Exact routes answer a request as every restart would if and only if no two different routes tie for it. */
  lemma AnswersExactlyWithoutTies(services: ServerServices, routes: seq<HttpRoute>, order: seq<Bytes>, q: Query)
    requires RoutesExact(routes, Listed(services, {})) && Enumerates(order, services.Keys)
    requires forall n :: n in services ==> services[n].name == n
    ensures AnswersAsRestarted(services, routes, q) <==> NoTies(routes, q)
  {
    if NoTies(routes, q) {
      RouteOrderIrrelevantExactlyWithoutTies(routes, q);
      forall o | Enumerates(o, services.Keys)
        ensures Chosen(FreshRoutes(services, o), ScoreFor(q)) == Chosen(routes, ScoreFor(q))
      {
        FreshRoutesPermute(services, routes, o);
      }
    } else {
      var r, s :| Top(routes, ScoreFor(q), r) && Top(routes, ScoreFor(q), s) && r != s;
      FreshRoutesPermute(services, routes, order);
      SameItems(FreshRoutes(services, order), routes);
      var o1 := WinsInSomeOrder(services, order, ScoreFor(q), r);
      var o2 := WinsInSomeOrder(services, order, ScoreFor(q), s);
      assert Chosen(FreshRoutes(services, o1), ScoreFor(q)) != Chosen(FreshRoutes(services, o2), ScoreFor(q));
    }
  }

  /** After any sequence of files that ends in server mode, without strays and without services that a restart would not
      list: the server answers a request as every restart from the last valid file would, if and only if no two
      different routes tie for that request. */
  lemma ReloadedServerAnswersAsRestarted(sha: Sha, args: Args, origin: Config, o: Orders, fs: seq<FileEvent>, w: World,
                                         order: seq<Bytes>, q: Query)
    requires Runnable(args, origin)
    requires origin.server.Some? ==> Enumerates(o.newServer, origin.server.value.services.Keys)
    requires forall f :: f in fs && f.file.Some? ==> Runnable(args, f.file.value)
    requires OrdersFit(origin, fs)
    requires w == OnFiles(sha, args, Boot(sha, args, origin, o), fs) && DetermineRunMode(w.config, args).RunServer?
    requires w.config.server.Some? && Enumerates(order, w.config.server.value.services.Keys)
    requires StraysAfterAll(origin, fs, {}, map[]) == map[]
    requires var last := w.config.server.value.services;
      forall n :: n in TouchedAfterAll(origin, fs, {}) && n in last ==> last[n].IsEnabled()
    ensures w.instance.ServerUp?
    ensures AnswersAsRestarted(w.config.server.value.services, w.instance.view.routes, q)
       <==> NoTies(w.instance.view.routes, q)
  {
    var last := w.config.server.value.services;
    RoutesExactExactlyWithoutStrays(sha, args, origin, o, fs, w);
    ListedExactlyEnabled(last, TouchedAfterAll(origin, fs, {}));
    LastRunnable(sha, args, Boot(sha, args, origin, o), fs);
    AnswersExactlyWithoutTies(last, w.instance.view.routes, order, q);
  }

  lemma {:induction false} LastRunnable(sha: Sha, args: Args, w: World, fs: seq<FileEvent>)
    requires Runnable(args, w.config) && forall f :: f in fs && f.file.Some? ==> Runnable(args, f.file.value)
    ensures Runnable(args, OnFiles(sha, args, w, fs).config)
    decreases |fs|
  {
    if fs == [] {
    } else {
      assert fs[0] in fs;
      LastRunnable(sha, args, OnFile(sha, args, w, fs[0]), fs[1..]);
    }
  }
}
