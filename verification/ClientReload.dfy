/** Hot reload on the client: which control channels it runs after a changed file. */
module ClientReload {
  import opened Basics
  import opened Configs
  import opened ConfigDiff
  import opened HotReload

  /** The running client: the configuration each control channel was started with. */
  class Client {
    var handles: ClientServices

    constructor (config: ClientConfig)
      ensures handles == FreshHandles(config)
    {
      handles := FreshHandles(config);
    }

    method HandleHotReload(e: ConfigChange)
      modifies this
      ensures handles == if e.ClientChange? then After(old(handles), e.client, ClientKey()) else old(handles)
    {
      match e {
        case ClientChange(Add(cfg)) =>
          if !cfg.IsEnabled() {
            return;
          }
          handles := handles[cfg.name := cfg];
        case ClientChange(Delete(name)) =>
          handles := handles - {name};
        case _ =>
      }
    }
  }

  /** The addition of a changed service takes effect as a restart would: an enabled one is stored under its own key,
      is in the start list and is not a visitor; a disabled one was not running. */
  predicate TakesEffect(was: ClientConfig, now: ClientConfig, n: Bytes)
    requires n in now.services
  {
    if now.services[n].IsEnabled() then now.user.None? && Starts(now, n) else !Starts(was, n)
  }

  lemma ClientNameInjective(user: Option<Bytes>, a: Bytes, b: Bytes)
    requires ClientName(user, a) == ClientName(user, b)
    ensures a == b
  {
    if user.Some? {
      var p := user.value + [DOT];
      assert a == (p + a)[|p|..] && b == (p + b)[|p|..];
    }
  }

  ghost function AfterReload(was: ClientConfig, now: ClientConfig, oldOrder: seq<Bytes>, newOrder: seq<Bytes>)
    : ClientServices
  {
    AfterAll(FreshHandles(was), ServiceEvents(was.services, now.services, oldOrder, newOrder), ClientKey())
  }

  /** `r` is what replaying the events on a freshly started client gives, key by key. */
  ghost predicate Replayed(was: ClientConfig, now: ClientConfig, newOrder: seq<Bytes>, r: ClientServices) {
    && (forall n, k :: Puts(was.services, now.services, ClientKey(), n, k) ==> k in r && r[k] == now.services[n])
    && (forall k :: Spared(was.services, now.services, ClientKey(), newOrder, k) ==>
          if k in was.services && k !in now.services then k !in r else SameAt(r, FreshHandles(was), k))
  }

  /** Different services are stored under different keys. */
  lemma PutsOnce(was: ClientConfig, now: ClientConfig)
    requires ClientWellNamed(now)
    ensures var ws, ns := was.services, now.services;
      forall a, b, k :: Puts(ws, ns, ClientKey(), a, k) && Puts(ws, ns, ClientKey(), b, k) ==> a == b
  {
    var ws, ns := was.services, now.services;
    forall a, b, k | Puts(ws, ns, ClientKey(), a, k) && Puts(ws, ns, ClientKey(), b, k) ensures a == b {
      ClientNameInjective(now.user, a, b);
    }
  }

  lemma ClientReplayEffect(was: ClientConfig, now: ClientConfig, oldOrder: seq<Bytes>, newOrder: seq<Bytes>)
    requires Enumerates(oldOrder, was.services.Keys) && Enumerates(newOrder, now.services.Keys)
    requires ClientWellNamed(now)
    ensures Replayed(was, now, newOrder, AfterReload(was, now, oldOrder, newOrder))
  {
    PutsOnce(was, now);
    ReplayEffect(FreshHandles(was), was.services, now.services, oldOrder, newOrder, ClientKey());
  }

  /** A changed enabled service under a user prefix ends up under a key where a restart would not put it. */
  lemma PrefixedServiceMisplaced(was: ClientConfig, now: ClientConfig, newOrder: seq<Bytes>, r: ClientServices,
                                 n: Bytes)
    requires ClientWellNamed(now) && now.user.Some? && Replayed(was, now, newOrder, r)
    requires Changed(was.services, now.services, n) && now.services[n].IsEnabled()
    ensures r != FreshHandles(now)
  {
    var k := now.services[n].name;
    assert Puts(was.services, now.services, ClientKey(), n, k);
    if k in now.services {
      assert now.services[k].name == ClientName(now.user, k);
      assert |ClientName(now.user, k)| > |k|;
    }
  }

  lemma IneffectiveChangeDiffers(was: ClientConfig, now: ClientConfig, newOrder: seq<Bytes>, r: ClientServices,
                                 n: Bytes)
    requires ClientWellNamed(now) && Enumerates(newOrder, now.services.Keys) && Replayed(was, now, newOrder, r)
    requires Changed(was.services, now.services, n) && !TakesEffect(was, now, n)
    ensures r != FreshHandles(now)
  {
    var key := ClientKey();
    if m :| m in newOrder && Puts(was.services, now.services, key, m, n) {
      if now.user.Some? {
        PrefixedServiceMisplaced(was, now, newOrder, r, m);
      } else {
        assert m == n && n in r && n !in FreshHandles(now);
      }
    } else if now.services[n].IsEnabled() {
      assert now.user.Some? by {
        assert n in newOrder && !Puts(was.services, now.services, key, n, n);
      }
      PrefixedServiceMisplaced(was, now, newOrder, r, n);
    } else {
      assert Spared(was.services, now.services, key, newOrder, n);
      assert n in FreshHandles(was) && n !in FreshHandles(now);
    }
  }

  lemma EffectiveChangesSuffice(was: ClientConfig, now: ClientConfig, newOrder: seq<Bytes>, r: ClientServices)
    requires ClientWellNamed(now) && Enumerates(newOrder, now.services.Keys) && Replayed(was, now, newOrder, r)
    requires was.(services := map[]) == now.(services := map[])
    requires forall n :: Changed(was.services, now.services, n) ==> TakesEffect(was, now, n)
    ensures r == FreshHandles(now)
  {
    var key, fresh' := ClientKey(), FreshHandles(now);
    forall k
      ensures k in r <==> k in fresh'
      ensures k in r && k in fresh' ==> r[k] == fresh'[k]
    {
      if Changed(was.services, now.services, k) && now.services[k].IsEnabled() {
        assert TakesEffect(was, now, k) && Puts(was.services, now.services, key, k, k);
      } else {
        forall n | n in newOrder ensures !Puts(was.services, now.services, key, n, k) {
          assert Changed(was.services, now.services, n) && now.services[n].IsEnabled() ==> now.user.None?;
        }
        assert Spared(was.services, now.services, key, newOrder, k);
      }
    }
  }

  /** One reload leaves the client with the control channels of a restart exactly when every changed service takes
      effect: additions ignore the start list, visitors and the user prefix, and disabling a service is ignored. */
  lemma ClientReloadEqualsRestartExactly(was: ClientConfig, now: ClientConfig,
                                         oldOrder: seq<Bytes>, newOrder: seq<Bytes>)
    requires Enumerates(oldOrder, was.services.Keys) && Enumerates(newOrder, now.services.Keys)
    requires ClientWellNamed(now) && was.(services := map[]) == now.(services := map[])
    ensures AfterReload(was, now, oldOrder, newOrder) == FreshHandles(now)
       <==> forall n :: Changed(was.services, now.services, n) ==> TakesEffect(was, now, n)
  {
    var r := AfterReload(was, now, oldOrder, newOrder);
    ClientReplayEffect(was, now, oldOrder, newOrder);
    if n :| Changed(was.services, now.services, n) && !TakesEffect(was, now, n) {
      IneffectiveChangeDiffers(was, now, newOrder, r, n);
    } else {
      EffectiveChangesSuffice(was, now, newOrder, r);
    }
  }

  /** For instance, a running client does not notice that a service was disabled. */
  lemma DisablingIsIgnored() returns (was: ClientConfig, now: ClientConfig, order: seq<Bytes>)
    ensures Enumerates(order, was.services.Keys) && Enumerates(order, now.services.Keys)
    ensures ClientWellNamed(was) && ClientWellNamed(now) && was.(services := map[]) == now.(services := map[])
    ensures AfterReload(was, now, order, order) != FreshHandles(now)
  {
    var service := ClientService([1], Tcp, None, None, []);
    was := ClientConfig(map[[1] := service], None, None, []);
    now := was.(services := map[[1] := service.(enabled := Some(false))]);
    order := [[1]];
    assert [1] in order;
    assert Changed(was.services, now.services, [1]) && !TakesEffect(was, now, [1]);
    ClientReloadEqualsRestartExactly(was, now, order, order);
  }

  // ---------------------------------------------------------------- any run of file changes

  lemma {:induction false} ClientReplays(sha: Sha, args: Args, handles: ClientServices,
                                         changes: seq<ServiceChange<ClientService>>, o: Orders)
    ensures OnEvents(sha, args, ClientUp(handles), AsClientChanges(changes), o)
         == ClientUp(AfterAll(handles, changes, ClientKey()))
    decreases |changes|
  {
    if changes == [] {
    } else {
      ClientReplays(sha, args, After(handles, changes[0], ClientKey()), changes[1..], o);
      assert AsClientChanges(changes)[1..] == AsClientChanges(changes[1..]);
    }
  }

  lemma {:induction false} ClientIgnoresServer(sha: Sha, args: Args, handles: ClientServices,
                                               changes: seq<ServiceChange<ServerService>>, o: Orders)
    ensures OnEvents(sha, args, ClientUp(handles), AsServerChanges(changes), o) == ClientUp(handles)
    decreases |changes|
  {
    if changes == [] {
    } else {
      ClientIgnoresServer(sha, args, handles, changes[1..], o);
      assert AsServerChanges(changes)[1..] == AsServerChanges(changes[1..]);
    }
  }

  lemma ClientEventsSeen(sha: Sha, args: Args, handles: ClientServices, was: Config, now: Config, o: Orders)
    requires was.client.Some? && !NeedsRestart(was, now)
    ensures OnEvents(sha, args, ClientUp(handles), CalculateEvents(was, now, o), o)
         == ClientUp(if was.client == now.client then handles
                     else AfterAll(handles, ServiceEvents(was.client.value.services, now.client.value.services,
                                                          o.oldClient, o.newClient), ClientKey()))
  {
    if was != now {
      var cs := if was.server.None? then []
                else ServiceEvents(was.server.value.services, now.server.value.services, o.oldServer, o.newServer);
      var ds := ServiceEvents(was.client.value.services, now.client.value.services, o.oldClient, o.newClient);
      var server := if was.server != now.server then AsServerChanges(cs) else [];
      var client := if was.client != now.client then AsClientChanges(ds) else [];
      assert CalculateEvents(was, now, o) == server + client;
      OnEventsConcat(sha, args, ClientUp(handles), server, client, o);
      ClientIgnoresServer(sha, args, handles, cs, o);
      ClientReplays(sha, args, handles, ds, o);
    }
  }

  ghost predicate StoresAt(was: ClientServices, now: ClientServices, k: Bytes) {
    exists n :: Puts(was, now, ClientKey(), n, k)
  }

  ghost function StoredKeys(was: ClientServices, now: ClientServices): (keys: set<Bytes>)
    ensures forall k :: k in keys <==> StoresAt(was, now, k)
  {
    var keys := set n | n in now && Changed(was, now, n) && now[n].IsEnabled() :: now[n].name;
    assert forall n :: n in now && Changed(was, now, n) && now[n].IsEnabled() ==>
      Puts(was, now, ClientKey(), n, now[n].name);
    keys
  }

  ghost function StoredAt(was: ClientServices, now: ClientServices, k: Bytes): (c: ClientService)
    requires StoresAt(was, now, k)
    ensures exists n :: Puts(was, now, ClientKey(), n, k) && c == now[n]
  {
    var n :| Puts(was, now, ClientKey(), n, k);
    now[n]
  }

  /** What a reload stores: every changed enabled service, under its (perhaps prefixed) name. */
  ghost function Stored(was: ClientServices, now: ClientServices): ClientServices {
    map k | k in StoredKeys(was, now) :: StoredAt(was, now, k)
  }

  /** The control channels after one reload of a client that was running `handles`: deletions by map key, then the
      stored services. */
  ghost function HandlesAfterReload(was: ClientServices, now: ClientServices,
                                    handles: ClientServices): ClientServices
  {
    (handles - (was.Keys - now.Keys)) + Stored(was, now)
  }

  lemma HandleAt(was: ClientConfig, now: ClientConfig, handles: ClientServices, k: Bytes)
    requires ClientWellNamed(now)
    ensures var h, ws, ns := HandlesAfterReload(was.services, now.services, handles), was.services, now.services;
      && (forall n :: Puts(ws, ns, ClientKey(), n, k) ==> k in h && h[k] == ns[n])
      && (!StoresAt(ws, ns, k) ==> if k in ws && k !in ns then k !in h else SameAt(h, handles, k))
  {
    PutsOnce(was, now);
  }

  lemma ReplayGivesHandles(was: ClientConfig, now: ClientConfig, handles: ClientServices,
                           oldOrder: seq<Bytes>, newOrder: seq<Bytes>)
    requires Enumerates(oldOrder, was.services.Keys) && Enumerates(newOrder, now.services.Keys)
    requires ClientWellNamed(now)
    ensures AfterAll(handles, ServiceEvents(was.services, now.services, oldOrder, newOrder), ClientKey())
         == HandlesAfterReload(was.services, now.services, handles)
  {
    var ws, ns, key := was.services, now.services, ClientKey();
    var r := AfterAll(handles, ServiceEvents(ws, ns, oldOrder, newOrder), key);
    PutsOnce(was, now);
    ReplayEffect(handles, ws, ns, oldOrder, newOrder, key);
    forall k ensures SameAt(r, HandlesAfterReload(ws, ns, handles), k) {
      HandleAt(was, now, handles, k);
      if StoresAt(ws, ns, k) {
        var n :| Puts(ws, ns, key, n, k);
      } else {
        assert Spared(ws, ns, key, newOrder, k);
      }
    }
    SameEverywhere(r, HandlesAfterReload(ws, ns, handles));
  }

  lemma SameEverywhere(a: ClientServices, b: ClientServices)
    requires forall k :: SameAt(a, b, k)
    ensures a == b
  {
    forall k
      ensures k in a <==> k in b
      ensures k in a && k in b ==> a[k] == b[k]
    {
      assert SameAt(a, b, k);
    }
  }

  /** The control channels after one more file: a restart starts afresh. */
  ghost function HandlesAfter(was: Config, now: Config, handles: ClientServices): ClientServices {
    if now.client.None? then map[]
    else if NeedsRestart(was, now) then FreshHandles(now.client.value)
    else if was.client == now.client then handles
    else HandlesAfterReload(was.client.value.services, now.client.value.services, handles)
  }

  // ---------------------------------------------------------------- channels a restart would not start

  /** Without a user prefix a service runs though a restart would not start it when a reload changed it while it was
      enabled, or when it was running and a reload disabled it. */
  function ExtrasAfterReload(was: ClientConfig, now: ClientConfig, extras: set<Bytes>): set<Bytes> {
    set n | n in now.services && !Starts(now, n)
      && ((Changed(was.services, now.services, n) && now.services[n].IsEnabled()) || n in extras || Starts(was, n))
  }

  /** The extras after one more file: a restart clears them. */
  function ExtrasAfter(was: Config, now: Config, extras: set<Bytes>): set<Bytes> {
    if now.client.None? || NeedsRestart(was, now) then {}
    else if was.client == now.client then extras
    else ExtrasAfterReload(was.client.value, now.client.value, extras)
  }

  /** `handles` are the channels a restart would run, with their settings, and the extras. */
  ghost predicate HandlesAre(c: ClientConfig, handles: ClientServices, extras: set<Bytes>) {
    && (forall n :: n in handles <==> Starts(c, n) || n in extras)
    && (forall n :: Starts(c, n) ==> handles[n] == c.services[n])
    && (forall n :: n in extras ==> n in c.services && !Starts(c, n))
  }

  lemma FreshExactlyWithoutExtras(c: ClientConfig, handles: ClientServices, extras: set<Bytes>)
    requires HandlesAre(c, handles, extras)
    ensures handles == FreshHandles(c) <==> extras == {}
  {
    if n :| n in extras {
      assert n in handles && n !in FreshHandles(c);
    }
  }

  lemma ReloadKeepsHandles(was: ClientConfig, now: ClientConfig, handles: ClientServices, extras: set<Bytes>)
    requires HandlesAre(was, handles, extras) && was.(services := map[]) == now.(services := map[])
    requires ClientWellNamed(now) && now.user.None?
    ensures HandlesAre(now, HandlesAfterReload(was.services, now.services, handles),
                       ExtrasAfterReload(was, now, extras))
  {
    var ws, ns := was.services, now.services;
    forall n ensures StoresAt(ws, ns, n) <==> Changed(ws, ns, n) && ns[n].IsEnabled() {
      assert Changed(ws, ns, n) && ns[n].IsEnabled() ==> Puts(ws, ns, ClientKey(), n, n);
    }
    forall n ensures var h := HandlesAfterReload(ws, ns, handles);
      if StoresAt(ws, ns, n) then n in h && h[n] == ns[n]
      else if n in ws && n !in ns then n !in h else SameAt(h, handles, n)
    {
      HandleAt(was, now, handles, n);
      assert StoresAt(ws, ns, n) ==> Puts(ws, ns, ClientKey(), n, n);
    }
  }

  // ---------------------------------------------------------------- with a user prefix

  /** With a user prefix: the file of the last restart, the channels started from it that are still there, and the keys
      under which reloads have misplaced channels since. */
  datatype Account = Account(base: ClientConfig, kept: set<Bytes>, misplaced: set<Bytes>)

  function StartAccount(c: Option<ClientConfig>): Account {
    if c.None? then Account(ClientConfig(map[], None, None, []), {}, {})
    else Account(c.value, set n | n in c.value.services && Starts(c.value, n), {})
  }

  ghost function AccountAfterReload(was: ClientServices, now: ClientServices, a: Account): Account {
    var deleted, stored := was.Keys - now.Keys, StoredKeys(was, now);
    a.(kept := a.kept - deleted - stored, misplaced := a.misplaced - deleted + stored)
  }

  ghost function AccountAfter(was: Config, now: Config, a: Account): Account {
    if now.client.None? || NeedsRestart(was, now) then StartAccount(now.client)
    else if was.client == now.client then a
    else AccountAfterReload(was.client.value.services, now.client.value.services, a)
  }

  ghost predicate PrefixedAre(handles: ClientServices, a: Account) {
    && handles.Keys == a.kept + a.misplaced
    && (forall n :: n in a.kept ==> n !in a.misplaced && n in a.base.services && handles[n] == a.base.services[n])
    && (forall k :: k in a.misplaced ==> handles[k].name == k)
  }

  /** Nothing is misplaced, and what was kept from the last restart is what a restart would run now. */
  predicate Settled(c: ClientConfig, a: Account) {
    && a.misplaced == {}
    && a.kept == (set n | n in c.services && Starts(c, n))
    && forall n :: n in a.kept && n in a.base.services && n in c.services ==> a.base.services[n] == c.services[n]
  }

  lemma FreshExactlyIfSettled(c: ClientConfig, handles: ClientServices, a: Account)
    requires PrefixedAre(handles, a) && ClientWellNamed(c) && c.user.Some?
    ensures handles == FreshHandles(c) <==> Settled(c, a)
  {
    forall k | k in c.services ensures c.services[k].name != k {
      assert |ClientName(c.user, k)| > |k|;
    }
  }

  lemma ReloadKeepsAccount(was: ClientServices, now: ClientServices,
                           handles: ClientServices, a: Account)
    requires PrefixedAre(handles, a)
    ensures PrefixedAre(HandlesAfterReload(was, now, handles), AccountAfterReload(was, now, a))
  {
    var stored := Stored(was, now);
    assert forall k :: k in stored ==> stored[k].name == k;
  }

  // ---------------------------------------------------------------- every reachable state

  /** What the files seen so far determine: the channels, the extras (without a user prefix) and the account (with
      one). */
  datatype Trace = Trace(handles: ClientServices, extras: set<Bytes>, account: Account)

  function StartTrace(c: Config): Trace {
    Trace(if c.client.Some? then FreshHandles(c.client.value) else map[], {}, StartAccount(c.client))
  }

  ghost function TraceAfter(was: Config, now: Config, t: Trace): Trace {
    Trace(HandlesAfter(was, now, t.handles), ExtrasAfter(was, now, t.extras), AccountAfter(was, now, t.account))
  }

  ghost function TraceAfterAll(was: Config, fs: seq<FileEvent>, t: Trace): Trace
    decreases |fs|
  {
    if fs == [] then t
    else if fs[0].file.None? then TraceAfterAll(was, fs[1..], t)
    else TraceAfterAll(fs[0].file.value, fs[1..], TraceAfter(was, fs[0].file.value, t))
  }

  /** In client mode the client runs the traced channels; in server mode a server is running. */
  ghost predicate ClientFollows(args: Args, w: World, t: Trace) {
    if DetermineRunMode(w.config, args).RunClient?
    then
      && w.config.client.Some? && w.instance == ClientUp(t.handles)
      && (if w.config.client.value.user.None? then HandlesAre(w.config.client.value, t.handles, t.extras)
          else PrefixedAre(t.handles, t.account))
    else w.instance.ServerUp?
  }

  lemma ClientFollowsReload(sha: Sha, args: Args, w: World, t: Trace, f: FileEvent)
    requires Runnable(args, w.config) && DetermineRunMode(w.config, args).RunClient? && ClientFollows(args, w, t)
    requires f.file.Some? && Runnable(args, f.file.value) && ValidOrders(w.config, f.file.value, f.orders)
    requires !NeedsRestart(w.config, f.file.value)
    ensures ClientFollows(args, OnFile(sha, args, w, f), TraceAfter(w.config, f.file.value, t))
  {
    var was, now, o := w.config, f.file.value, f.orders;
    ClientEventsSeen(sha, args, t.handles, was, now, o);
    if was.client != now.client {
      ReplayGivesHandles(was.client.value, now.client.value, t.handles, o.oldClient, o.newClient);
      if now.client.value.user.None? {
        ReloadKeepsHandles(was.client.value, now.client.value, t.handles, t.extras);
      } else {
        ReloadKeepsAccount(was.client.value.services, now.client.value.services, t.handles, t.account);
      }
    }
  }

  lemma ClientFollowsFile(sha: Sha, args: Args, w: World, t: Trace, f: FileEvent)
    requires Runnable(args, w.config) && ClientFollows(args, w, t)
    requires f.file.Some? && Runnable(args, f.file.value) && ValidOrders(w.config, f.file.value, f.orders)
    ensures ClientFollows(args, OnFile(sha, args, w, f), TraceAfter(w.config, f.file.value, t))
  {
    var was, now, o := w.config, f.file.value, f.orders;
    if NeedsRestart(was, now) {
      RestartReplaces(sha, args, w.instance, was, now, o);
    } else {
      OtherModeKept(sha, args, w.instance, was, now, o);
      if w.instance.ClientUp? {
        ClientFollowsReload(sha, args, w, t, f);
      }
    }
  }

  /** The control channels in every state reached by any sequence of files. */
  lemma {:induction false} ClientFollowsFiles(sha: Sha, args: Args, w: World, t: Trace, fs: seq<FileEvent>)
    requires Runnable(args, w.config) && ClientFollows(args, w, t)
    requires forall f :: f in fs && f.file.Some? ==> Runnable(args, f.file.value)
    requires OrdersFit(w.config, fs)
    ensures ClientFollows(args, OnFiles(sha, args, w, fs), TraceAfterAll(w.config, fs, t))
    ensures Runnable(args, OnFiles(sha, args, w, fs).config)
    decreases |fs|
  {
    if fs == [] {
    } else {
      var f := fs[0];
      assert f in fs;
      if f.file.Some? {
        ClientFollowsFile(sha, args, w, t, f);
        ClientFollowsFiles(sha, args, OnFile(sha, args, w, f), TraceAfter(w.config, f.file.value, t), fs[1..]);
      } else {
        ClientFollowsFiles(sha, args, w, t, fs[1..]);
      }
    }
  }

  /** After any sequence of files that ends in client mode the client runs exactly the traced channels.  They are those
      of a restart from the last valid file if and only if, without a user prefix, there are no extras; with one, if and
      only if nothing is misplaced and what was kept since the last restart is what a restart would run. */
  lemma ClientHotReloadEqualsRestart(sha: Sha, args: Args, origin: Config, o: Orders, fs: seq<FileEvent>, w: World)
    requires Runnable(args, origin)
    requires origin.server.Some? ==> Enumerates(o.newServer, origin.server.value.services.Keys)
    requires forall f :: f in fs && f.file.Some? ==> Runnable(args, f.file.value)
    requires OrdersFit(origin, fs)
    requires w == OnFiles(sha, args, Boot(sha, args, origin, o), fs) && DetermineRunMode(w.config, args).RunClient?
    ensures w.config.client.Some?
    ensures var t, last := TraceAfterAll(origin, fs, StartTrace(origin)), w.config.client.value;
      && w.instance == ClientUp(t.handles)
      && (t.handles == FreshHandles(last) <==> if last.user.None? then t.extras == {} else Settled(last, t.account))
  {
    var boot, t := Boot(sha, args, origin, o), TraceAfterAll(origin, fs, StartTrace(origin));
    assert ClientFollows(args, boot, StartTrace(origin));
    ClientFollowsFiles(sha, args, boot, StartTrace(origin), fs);
    if w.config.client.value.user.None? {
      FreshExactlyWithoutExtras(w.config.client.value, t.handles, t.extras);
    } else {
      FreshExactlyIfSettled(w.config.client.value, t.handles, t.account);
    }
  }
}
