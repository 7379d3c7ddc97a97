/** The control-channel registry under every interleaving of handshakes, data channels and hot reloads.

    Each critical section is one action.  A reload is two of them: the service table changes first and the service's
    control channel is dropped later, with handshakes free to run in between. */
module RegistryMachine {
  import opened Basics
  import opened Configs
  import opened MultiMaps
  import opened Servers

  /** A data connection together with the session key its hello presented. */
  datatype Conn = Conn(id: nat, key: Digest)

  datatype Phase =
    | Greeted                                            // nonce sent, service not looked up yet
    | AwaitAuth(service: ServerService)                  // configuration copied, waiting for the client's digest
    | Installed(service: ServerService, current: bool)   // `current`: the table still held it at that moment
    | Closed

  datatype Handshake = Handshake(digest: Digest, nonce: Bytes, phase: Phase)

  datatype ReloadPhase = Idle | Dropping(digest: Digest, adding: bool)

  datatype State = State(
    services: map<Digest, ServerService>,
    channels: Registry,
    handshakes: map<nat, Handshake>,
    queues: map<nat, seq<Conn>>,                  // data channels queued on each handle, live or dropped
    reload: ReloadPhase,
    everListed: set<(Digest, ServerService)>,     // history: every table entry there ever was
    hashed: set<Bytes>)                           // history: every token-and-nonce string the server hashed

  datatype Action =
    | Hello(id: nat, digest: Digest, nonce: Bytes)
    | Lookup(id: nat)
    | Auth(id: nat, answer: Digest, ackOk: bool)  // `ackOk`: the acknowledgement could be written
    | DataHello(conn: Conn, open: bool)           // `open`: the handle's pool still receives
    | ReloadTable(change: ServiceChange<ServerService>)
    | ReloadDrop

  function Init(services: map<Digest, ServerService>): State {
    State(services, {}, map[], map[], Idle, set d | d in services :: (d, services[d]), {})
  }

  function Preimage(service: ServerService, nonce: Bytes): Bytes
    requires service.token.Some?
  {
    service.token.value + nonce
  }

  ghost predicate Enabled(s: State, a: Action) {
    match a
    case Hello(id, _, nonce) =>
      && id !in s.handshakes && |nonce| == HASH_WIDTH
      && forall i :: i in s.handshakes ==> s.handshakes[i].nonce != nonce       // nonces are fresh
    case Lookup(id) =>
      // adding a service holds the table lock until its channel has been dropped
      id in s.handshakes && s.handshakes[id].phase.Greeted? && !(s.reload.Dropping? && s.reload.adding)
    case Auth(id, _, _) =>
      id in s.handshakes && s.handshakes[id].phase.AwaitAuth? && s.handshakes[id].phase.service.token.Some?
    case DataHello(_, _) => true
    case ReloadTable(_) => s.reload.Idle?
    case ReloadDrop => s.reload.Dropping?
  }

  ghost function Next(sha: Sha, s: State, a: Action): State
    requires Enabled(s, a)
  {
    match a
    case Hello(id, digest, nonce) => s.(handshakes := s.handshakes[id := Handshake(digest, nonce, Greeted)])
    case Lookup(id) =>
      var h := s.handshakes[id];
      // an entry without a token makes the handshake task panic
      var phase := if h.digest in s.services && s.services[h.digest].token.Some?
                   then AwaitAuth(s.services[h.digest]) else Closed;
      s.(handshakes := s.handshakes[id := h.(phase := phase)])
    case Auth(id, answer, ackOk) => AfterAuth(sha, s, id, answer, ackOk)
    case DataHello(conn, open) =>
      if open && HasKey2(s.channels, conn.key) then
        var x :| x in s.channels && x.k2 == conn.key;
        if x.v.id in s.queues then s.(queues := s.queues[x.v.id := s.queues[x.v.id] + [conn]]) else s
      else s
    case ReloadTable(change) =>
      s.(services := TableAfter(sha, s.services, change),
         reload := Dropping(sha(ChangedName(change)), change.Add?),
         everListed := s.everListed + if change.Add? then {(sha(change.service.name), change.service)} else {})
    case ReloadDrop => s.(channels := Without1(s.channels, s.reload.digest), reload := Idle)
  }

  ghost function AfterAuth(sha: Sha, s: State, id: nat, answer: Digest, ackOk: bool): State
    requires Enabled(s, Auth(id, answer, ackOk))
  {
    var h := s.handshakes[id];
    var service := h.phase.service;
    var text := Preimage(service, h.nonce);
    var t := s.(hashed := s.hashed + {text});
    if answer != sha(text) then t.(handshakes := s.handshakes[id := h.(phase := Closed)])
    else
      var u := t.(channels := ChannelsAfterAuth(s.channels, h.digest, sha(text), Handle(id, service), ackOk));
      if !ackOk then u.(handshakes := s.handshakes[id := h.(phase := Closed)])
      else
        var current := h.digest in s.services && s.services[h.digest] == service;
        u.(handshakes := s.handshakes[id := h.(phase := Installed(service, current))], queues := s.queues[id := []])
  }

  ghost predicate Run(sha: Sha, s: State, actions: seq<Action>, t: State)
    decreases |actions|
  {
    if actions == [] then s == t
    else Enabled(s, actions[0]) && Run(sha, Next(sha, s, actions[0]), actions[1..], t)
  }

  // ---------------------------------------------------------------- the invariant

  /** Nonces have the width of a digest and are never reused. */
  ghost predicate NoncesFresh(s: State) {
    && (forall i :: i in s.handshakes ==> |s.handshakes[i].nonce| == HASH_WIDTH)
    && (forall i, j :: i in s.handshakes && j in s.handshakes && s.handshakes[i].nonce == s.handshakes[j].nonce ==>
          i == j)
  }

  /** A configuration in use by a handshake was in the table, under that service's digest, when it was looked up. */
  ghost predicate ServicesWereListed(s: State) {
    && (forall d :: d in s.services ==> (d, s.services[d]) in s.everListed)
    && (forall i :: i in s.handshakes && !s.handshakes[i].phase.Greeted? && !s.handshakes[i].phase.Closed? ==>
          var h := s.handshakes[i];
          h.phase.service.token.Some? && (h.digest, h.phase.service) in s.everListed)
  }

  ghost predicate IsInstalled(s: State, id: nat) {
    && id in s.handshakes && s.handshakes[id].phase.Installed?
    && s.handshakes[id].phase.service.token.Some?
    && Preimage(s.handshakes[id].phase.service, s.handshakes[id].nonce) in s.hashed
  }

  /** The session key of an installed handshake: the digest of the looked-up token followed by the nonce. */
  ghost function KeyOf(sha: Sha, s: State, id: nat): Digest
    requires IsInstalled(s, id)
  {
    sha(Preimage(s.handshakes[id].phase.service, s.handshakes[id].nonce))
  }

  /** At most one channel per service and per session key; each belongs to an installed handshake and has its key. */
  ghost predicate ChannelsOk(sha: Sha, s: State) {
    && UniqueKeys(s.channels)
    && forall x :: x in s.channels ==>
         && IsInstalled(s, x.v.id)
         && s.handshakes[x.v.id].digest == x.k1
         && s.handshakes[x.v.id].phase.service == x.v.service
         && KeyOf(sha, s, x.v.id) == x.k2
  }

  /** A data channel is queued only on the handle whose key it presented. */
  ghost predicate QueuesOk(sha: Sha, s: State) {
    forall id :: id in s.queues ==>
      && IsInstalled(s, id)
      && forall k :: 0 <= k < |s.queues[id]| ==> s.queues[id][k].key == KeyOf(sha, s, id)
  }

  /** Outside a reload of the service, a channel runs with the configuration in the table exactly when the table
      still held it at the moment the channel was installed. */
  ghost predicate CurrentExactlyIfInstalledCurrent(s: State) {
    forall x :: x in s.channels && !(s.reload.Dropping? && s.reload.digest == x.k1) ==>
      && x.v.id in s.handshakes && s.handshakes[x.v.id].phase.Installed?
      && (s.handshakes[x.v.id].phase.current <==> x.k1 in s.services && s.services[x.k1] == x.v.service)
  }

  /** Every installed handshake has a queue. */
  ghost predicate QueuesThere(s: State) {
    forall id :: id in s.handshakes && s.handshakes[id].phase.Installed? ==> id in s.queues
  }

  ghost predicate Inv(sha: Sha, s: State) {
    && NoncesFresh(s) && ServicesWereListed(s) && ChannelsOk(sha, s) && QueuesOk(sha, s) && QueuesThere(s)
    && CurrentExactlyIfInstalledCurrent(s)
  }

  // ---------------------------------------------------------------- proofs

  lemma SuffixDeterminesNonce(t1: Bytes, n1: Bytes, t2: Bytes, n2: Bytes)
    requires t1 + n1 == t2 + n2 && |n1| == |n2|
    ensures t1 == t2 && n1 == n2
  {
    assert |t1| == |t2|;
    assert t1 == (t1 + n1)[..|t1|] && t2 == (t2 + n2)[..|t2|];
    assert n1 == (t1 + n1)[|t1|..] && n2 == (t2 + n2)[|t2|..];
  }

  /** The insertion whose result the server ignores is never refused: no other channel can hold the new key. */
  lemma InsertNeverRefused(sha: Sha, s: State, id: nat, answer: Digest)
    requires Inv(sha, s) && Enabled(s, Auth(id, answer, true))
    requires CollisionFree(sha, s.hashed + {Preimage(s.handshakes[id].phase.service, s.handshakes[id].nonce)})
    ensures var h := s.handshakes[id];
      CanInsert(Without1(s.channels, h.digest), h.digest, sha(Preimage(h.phase.service, h.nonce)))
  {
    var h := s.handshakes[id];
    var text := Preimage(h.phase.service, h.nonce);
    forall x | x in s.channels
      ensures x.k2 != sha(text)
    {
      var g := s.handshakes[x.v.id];
      if x.k2 == sha(text) {
        assert Preimage(g.phase.service, g.nonce) == text;
        SuffixDeterminesNonce(g.phase.service.token.value, g.nonce, h.phase.service.token.value, h.nonce);
        assert false;
      }
    }
  }

  /** No step changes or forgets an installed handshake. */
  ghost predicate InstalledKept(s: State, t: State) {
    && s.hashed <= t.hashed
    && forall i :: i in s.handshakes && s.handshakes[i].phase.Installed? ==>
         i in t.handshakes && t.handshakes[i] == s.handshakes[i]
  }

  lemma {:induction false} StepKeepsInstalled(sha: Sha, s: State, a: Action)
    requires Enabled(s, a)
    ensures InstalledKept(s, Next(sha, s, a))
  {
  }

  lemma NoncesKept(sha: Sha, s: State, a: Action)
    requires Enabled(s, a) && !a.Hello?
    ensures var t := Next(sha, s, a);
      forall i :: i in t.handshakes ==> i in s.handshakes && t.handshakes[i].nonce == s.handshakes[i].nonce
  {
  }

  lemma {:induction false} StepKeepsNonces(sha: Sha, s: State, a: Action)
    requires NoncesFresh(s) && Enabled(s, a)
    ensures NoncesFresh(Next(sha, s, a))
  {
    if !a.Hello? {
      NoncesKept(sha, s, a);
    }
  }

  lemma {:induction false} StepKeepsListed(sha: Sha, s: State, a: Action)
    requires ServicesWereListed(s) && Enabled(s, a)
    ensures ServicesWereListed(Next(sha, s, a))
  {
  }

  lemma FewerChannelsOk(sha: Sha, s: State, t: State)
    requires ChannelsOk(sha, s) && InstalledKept(s, t) && t.channels <= s.channels
    ensures ChannelsOk(sha, t)
  {
  }

  lemma AuthKeepsChannels(sha: Sha, s: State, id: nat, answer: Digest, ackOk: bool)
    requires Inv(sha, s) && Enabled(s, Auth(id, answer, ackOk))
    requires CollisionFree(sha, Next(sha, s, Auth(id, answer, ackOk)).hashed)
    ensures ChannelsOk(sha, Next(sha, s, Auth(id, answer, ackOk)))
  {
    var t := Next(sha, s, Auth(id, answer, ackOk));
    var h := s.handshakes[id];
    StepKeepsInstalled(sha, s, Auth(id, answer, ackOk));
    if answer == sha(Preimage(h.phase.service, h.nonce)) && ackOk {
      InsertNeverRefused(sha, s, id, answer);
      InsertedChannelOk(sha, s, id, t);
    } else {
      FewerChannelsOk(sha, s, t);
    }
  }

  lemma StepKeepsChannels(sha: Sha, s: State, a: Action)
    requires Inv(sha, s) && Enabled(s, a) && CollisionFree(sha, Next(sha, s, a).hashed)
    ensures ChannelsOk(sha, Next(sha, s, a))
  {
    if a.Auth? {
      AuthKeepsChannels(sha, s, a.id, a.answer, a.ackOk);
    } else {
      StepKeepsInstalled(sha, s, a);
      FewerChannelsOk(sha, s, Next(sha, s, a));
    }
  }

  lemma InsertedChannelOk(sha: Sha, s: State, id: nat, t: State)
    requires ChannelsOk(sha, s) && InstalledKept(s, t) && IsInstalled(t, id)
    requires var h := t.handshakes[id];
      && CanInsert(Without1(s.channels, h.digest), h.digest, KeyOf(sha, t, id))
      && t.channels
         == Without1(s.channels, h.digest) + {Triple(h.digest, KeyOf(sha, t, id), Handle(id, h.phase.service))}
    ensures ChannelsOk(sha, t)
  {
    var rest := Without1(s.channels, t.handshakes[id].digest);
    assert forall x :: x in rest ==> x in s.channels && x.k2 != KeyOf(sha, t, id);
  }

  lemma {:induction false} StepKeepsQueues(sha: Sha, s: State, a: Action)
    requires ChannelsOk(sha, s) && QueuesOk(sha, s) && Enabled(s, a)
    ensures QueuesOk(sha, Next(sha, s, a))
  {
    StepKeepsInstalled(sha, s, a);
  }

  lemma StepKeepsQueuesThere(sha: Sha, s: State, a: Action)
    requires QueuesThere(s) && Enabled(s, a)
    ensures QueuesThere(Next(sha, s, a))
  {
  }

  lemma {:induction false} StepKeepsCurrent(sha: Sha, s: State, a: Action)
    requires ChannelsOk(sha, s) && CurrentExactlyIfInstalledCurrent(s) && Enabled(s, a)
    ensures CurrentExactlyIfInstalledCurrent(Next(sha, s, a))
  {
    var t := Next(sha, s, a);
    StepKeepsInstalled(sha, s, a);
    forall x | x in t.channels && x in s.channels && !(t.reload.Dropping? && t.reload.digest == x.k1)
      ensures IsInstalled(s, x.v.id) && t.handshakes[x.v.id] == s.handshakes[x.v.id]
      ensures t.handshakes[x.v.id].phase.current <==> x.k1 in t.services && t.services[x.k1] == x.v.service
    {
    }
  }

  /** Registry safety in every state reachable under any interleaving. */
  lemma {:induction false} RegistrySafety(sha: Sha, s: State, actions: seq<Action>, t: State)
    requires Inv(sha, s) && Run(sha, s, actions, t) && CollisionFree(sha, t.hashed)
    ensures Inv(sha, t)
    decreases |actions|
  {
    if actions == [] {
    } else {
      var m := Next(sha, s, actions[0]);
      HashedGrows(sha, m, actions[1..], t);
      StepKeepsNonces(sha, s, actions[0]);
      StepKeepsListed(sha, s, actions[0]);
      StepKeepsChannels(sha, s, actions[0]);
      StepKeepsQueues(sha, s, actions[0]);
      StepKeepsQueuesThere(sha, s, actions[0]);
      StepKeepsCurrent(sha, s, actions[0]);
      RegistrySafety(sha, m, actions[1..], t);
    }
  }

  lemma {:induction false} HashedGrows(sha: Sha, s: State, actions: seq<Action>, t: State)
    requires Run(sha, s, actions, t)
    ensures s.hashed <= t.hashed
    decreases |actions|
  {
    if actions == [] {
    } else {
      HashedGrows(sha, Next(sha, s, actions[0]), actions[1..], t);
    }
  }

  lemma InitOk(sha: Sha, services: map<Digest, ServerService>)
    ensures Inv(sha, Init(services))
  {
  }

  // ---------------------------------------------------------------- what each critical section does

  /** The digest a client must present: of the token its service had at lookup, followed by the nonce it was sent. */
  ghost predicate Expects(sha: Sha, s: State, id: nat, key: Digest) {
    && id in s.handshakes && s.handshakes[id].phase.AwaitAuth? && s.handshakes[id].phase.service.token.Some?
    && key == sha(s.handshakes[id].phase.service.token.value + s.handshakes[id].nonce)
  }

  /** A wrong digest closes the handshake and changes nothing else another task can see. */
  lemma WrongAnswerRefused(sha: Sha, s: State, id: nat, key: Digest, answer: Digest, ackOk: bool)
    requires Expects(sha, s, id, key) && answer != key
    ensures var t := Next(sha, s, Auth(id, answer, ackOk));
      && t.channels == s.channels && t.services == s.services && t.queues == s.queues
      && t.handshakes == s.handshakes[id := s.handshakes[id].(phase := Closed)]
  {
  }

  /** The right digest removes the service's previous channel and, if the acknowledgement could be written, installs
      exactly one channel, for this handshake, with an empty queue; every other service's channel stays. */
  lemma RightAnswerInstalls(sha: Sha, s: State, id: nat, key: Digest, ackOk: bool)
    requires Inv(sha, s) && Expects(sha, s, id, key)
    requires CollisionFree(sha, Next(sha, s, Auth(id, key, ackOk)).hashed)
    ensures var t, d, service :=
        Next(sha, s, Auth(id, key, ackOk)), s.handshakes[id].digest, s.handshakes[id].phase.service;
      && t.services == s.services
      && (forall x :: x in t.channels <==>
            (x in s.channels && x.k1 != d) || (ackOk && x == Triple(d, key, Handle(id, service))))
      && (if ackOk
          then IsInstalled(t, id) && t.handshakes[id].phase.service == service && t.queues == s.queues[id := []]
          else t.handshakes[id].phase.Closed? && t.queues == s.queues)
  {
    if ackOk {
      InsertNeverRefused(sha, s, id, key);
    }
  }

  /** Of all other steps the end of a reload alone changes the channels: it removes exactly the reloaded service's. */
  lemma OtherStepsKeepChannels(sha: Sha, s: State, a: Action)
    requires Enabled(s, a) && !a.Auth?
    ensures forall x :: x in Next(sha, s, a).channels <==>
      x in s.channels && !(a.ReloadDrop? && x.k1 == s.reload.digest)
  {
  }

  /** A data connection is put at the end of the queue of the one channel whose key it presented, if that channel's pool
      still receives; otherwise nothing happens. */
  lemma DataChannelRouted(sha: Sha, s: State, conn: Conn, open: bool)
    requires Inv(sha, s)
    ensures var t := Next(sha, s, DataHello(conn, open));
      && (forall x :: x in s.channels && x.k2 == conn.key && open ==>
            x.v.id in s.queues && t == s.(queues := s.queues[x.v.id := s.queues[x.v.id] + [conn]]))
      && (!open || (forall x :: x in s.channels ==> x.k2 != conn.key) ==> t == s)
  {
    forall x | x in s.channels && x.k2 == conn.key ensures x.v.id in s.queues {
      assert IsInstalled(s, x.v.id);
    }
  }

  /** A lookup takes the table's entry as it is now; without one, or without a token in it, the handshake ends. */
  lemma LookupTakesEntry(sha: Sha, s: State, id: nat)
    requires Enabled(s, Lookup(id))
    ensures var d, t := s.handshakes[id].digest, Next(sha, s, Lookup(id));
      && t == s.(handshakes := t.handshakes)
      && t.handshakes == s.handshakes[id := s.handshakes[id].(phase := t.handshakes[id].phase)]
      && (d in s.services && s.services[d].token.Some? ==> t.handshakes[id].phase == AwaitAuth(s.services[d]))
      && (d !in s.services || s.services[d].token.None? ==> t.handshakes[id].phase == Closed)
  {
  }

  /** While a service is being added nobody looks anything up: the table lock is held until the channel is dropped. */
  lemma {:induction false} NoLookupDuringAdd(sha: Sha, s: State, actions: seq<Action>, t: State, d: Digest)
    requires s.reload == Dropping(d, true) && Run(sha, s, actions, t) && ReloadDrop !in actions
    ensures t.reload == s.reload && t.services == s.services && forall id :: Lookup(id) !in actions
    decreases |actions|
  {
    if actions == [] {
    } else {
      assert actions == [actions[0]] + actions[1..];
      NoLookupDuringAdd(sha, Next(sha, s, actions[0]), actions[1..], t, d);
    }
  }

  /** A client that knows the token of a listed service gets its channel, whatever state the server is in. */
  lemma HonestClientInstalled(sha: Sha, s: State, id: nat, d: Digest, nonce: Bytes)
    returns (actions: seq<Action>, t: State)
    requires Inv(sha, s) && !(s.reload.Dropping? && s.reload.adding) && Enabled(s, Hello(id, d, nonce))
    requires d in s.services && s.services[d].token.Some?
    requires CollisionFree(sha, s.hashed + {s.services[d].token.value + nonce})
    ensures var key := sha(s.services[d].token.value + nonce);
      && actions == [Hello(id, d, nonce), Lookup(id), Auth(id, key, true)] && Run(sha, s, actions, t)
      && Triple(d, key, Handle(id, s.services[d])) in t.channels
  {
    var key := sha(s.services[d].token.value + nonce);
    var s1 := Next(sha, s, Hello(id, d, nonce));
    var s2 := Next(sha, s1, Lookup(id));
    t := Next(sha, s2, Auth(id, key, true));
    actions := [Hello(id, d, nonce), Lookup(id), Auth(id, key, true)];
    assert Run(sha, s2, actions[2..], t) by { assert actions[2..][1..] == []; }
    assert Run(sha, s1, actions[1..], t) by { assert actions[1..][1..] == actions[2..]; }
    assert s1.hashed == s.hashed && s2.hashed == s.hashed;
    RegistrySafety(sha, s, [Hello(id, d, nonce)], s1);
    RegistrySafety(sha, s1, [Lookup(id)], s2);
    RightAnswerInstalls(sha, s2, id, key, true);
  }

  // ---------------------------------------------------------------- what a channel's client has presented

  ghost predicate Presented(sha: Sha, actions: seq<Action>, s: State, id: nat) {
    id in s.handshakes ==>
      var h := s.handshakes[id];
      && Hello(id, h.digest, h.nonce) in actions
      && (h.phase.Installed? ==>
            h.phase.service.token.Some? && Auth(id, sha(h.phase.service.token.value + h.nonce), true) in actions)
  }

  lemma StepKeepsPresented(sha: Sha, actions: seq<Action>, s: State, a: Action, id: nat)
    requires Enabled(s, a) && Presented(sha, actions, s, id)
    ensures Presented(sha, actions + [a], Next(sha, s, a), id)
  {
    assert forall x :: x in actions ==> x in actions + [a];
    assert a in actions + [a];
  }

  lemma {:induction false} AlwaysPresented(sha: Sha, services: map<Digest, ServerService>, actions: seq<Action>,
                                           t: State, id: nat)
    requires Run(sha, Init(services), actions, t)
    ensures Presented(sha, actions, t, id)
    decreases |actions|
  {
    if actions == [] {
    } else {
      var init, last := actions[..|actions| - 1], actions[|actions| - 1];
      var m := LastStep(sha, Init(services), actions, t);
      AlwaysPresented(sha, services, init, m, id);
      StepKeepsPresented(sha, init, m, last, id);
      assert actions == init + [last];
    }
  }

  /** In every reachable state each channel belongs to a client that named its service and presented, as its answer to
      the nonce it was sent, the channel's session key: the digest of the service's token followed by that nonce. */
  lemma ChannelsAuthenticated(sha: Sha, services: map<Digest, ServerService>, actions: seq<Action>, t: State,
                              x: Triple<Digest, Digest, Handle>)
    requires Run(sha, Init(services), actions, t) && CollisionFree(sha, t.hashed) && x in t.channels
    ensures x.v.id in t.handshakes && x.v.service.token.Some?
    ensures x.k2 == sha(x.v.service.token.value + t.handshakes[x.v.id].nonce)
    ensures Hello(x.v.id, x.k1, t.handshakes[x.v.id].nonce) in actions && Auth(x.v.id, x.k2, true) in actions
  {
    InitOk(sha, services);
    RegistrySafety(sha, Init(services), actions, t);
    AlwaysPresented(sha, services, actions, t, x.v.id);
  }

  // ---------------------------------------------------------------- which channels are stale

  function Entry(services: map<Digest, ServerService>, d: Digest): Option<ServerService> {
    if d in services then Some(services[d]) else None
  }

  /** What an action does to the table's entry for digest `d`. */
  function EntryEffect(sha: Sha, a: Action, d: Digest, e: Option<ServerService>): Option<ServerService> {
    if a.ReloadTable? && sha(ChangedName(a.change)) == d
    then if a.change.Add? then Some(a.change.service) else None
    else e
  }

  function EntryAfter(sha: Sha, actions: seq<Action>, d: Digest, e: Option<ServerService>): Option<ServerService> {
    if actions == [] then e
    else EntryEffect(sha, actions[|actions| - 1], d, EntryAfter(sha, actions[..|actions| - 1], d, e))
  }

  lemma StepChangesEntry(sha: Sha, s: State, a: Action, d: Digest)
    requires Enabled(s, a)
    ensures Entry(Next(sha, s, a).services, d) == EntryEffect(sha, a, d, Entry(s.services, d))
  {
  }

  predicate IsAuth(a: Action, id: nat) { a.Auth? && a.id == id }

  /** Handshake `id` looks its service up at position `i` and is authenticated at position `j`. */
  predicate Span(actions: seq<Action>, id: nat, i: int, j: int) {
    0 <= i < j < |actions| && actions[i] == Lookup(id) && IsAuth(actions[j], id)
  }

  ghost predicate NoAuth(actions: seq<Action>, id: nat) {
    forall k :: 0 <= k < |actions| ==> !IsAuth(actions[k], id)
  }

  ghost predicate NoLookup(actions: seq<Action>, id: nat) {
    forall k :: 0 <= k < |actions| ==> actions[k] != Lookup(id)
  }

  /** Since its lookup the reloads have turned the entry for `d`, then `service`, into `now`. */
  ghost predicate LookedUp(sha: Sha, actions: seq<Action>, id: nat, d: Digest, service: ServerService,
                           now: Option<ServerService>)
  {
    && !NoLookup(actions, id)
    && forall i :: 0 <= i < |actions| && actions[i] == Lookup(id) ==>
         EntryAfter(sha, actions[i + 1..], d, Some(service)) == now
  }

  /** Between its lookup and its authentication the reloads have left `service` as the entry for `d`, or not. */
  ghost predicate Authenticated(sha: Sha, actions: seq<Action>, id: nat, d: Digest, service: ServerService,
                                current: bool)
  {
    && (exists i, j :: Span(actions, id, i, j))
    && forall i, j :: 0 <= i < |actions| && 0 <= j < |actions| && actions[i] == Lookup(id) && IsAuth(actions[j], id) ==>
         i < j && (current <==> EntryAfter(sha, actions[i + 1..j], d, Some(service)) == Some(service))
  }

  /** What the run so far tells about the phase of handshake `id`. */
  ghost predicate History(sha: Sha, actions: seq<Action>, s: State, id: nat) {
    if id !in s.handshakes then NoLookup(actions, id) && NoAuth(actions, id)
    else
      var d := s.handshakes[id].digest;
      match s.handshakes[id].phase
      case Greeted => NoLookup(actions, id) && NoAuth(actions, id)
      case AwaitAuth(service) =>
        NoAuth(actions, id) && LookedUp(sha, actions, id, d, service, Entry(s.services, d))
      case Installed(service, current) => Authenticated(sha, actions, id, d, service, current)
      case Closed => true
  }

  lemma LookupRecorded(sha: Sha, actions: seq<Action>, id: nat, d: Digest, service: ServerService)
    requires NoLookup(actions, id) && NoAuth(actions, id)
    ensures var more := actions + [Lookup(id)]; LookedUp(sha, more, id, d, service, Some(service)) && NoAuth(more, id)
  {
    var more := actions + [Lookup(id)];
    assert more[|actions|] == Lookup(id) && more[|actions| + 1..] == [];
  }

  lemma WaitRecorded(sha: Sha, actions: seq<Action>, id: nat, d: Digest, service: ServerService,
                     now: Option<ServerService>, a: Action)
    requires LookedUp(sha, actions, id, d, service, now) && NoAuth(actions, id) && a != Lookup(id) && !IsAuth(a, id)
    ensures var more := actions + [a];
      LookedUp(sha, more, id, d, service, EntryEffect(sha, a, d, now)) && NoAuth(more, id)
  {
    var more := actions + [a];
    forall i | 0 <= i < |more| && more[i] == Lookup(id)
      ensures EntryAfter(sha, more[i + 1..], d, Some(service)) == EntryEffect(sha, a, d, now)
    {
      assert more[i + 1..] == actions[i + 1..] + [a];
      assert (actions[i + 1..] + [a])[..|actions| - i - 1] == actions[i + 1..];
    }
    var k :| 0 <= k < |actions| && actions[k] == Lookup(id);
    assert more[k] == Lookup(id);
  }

  lemma AuthRecorded(sha: Sha, actions: seq<Action>, id: nat, d: Digest, service: ServerService,
                     now: Option<ServerService>, a: Action)
    requires LookedUp(sha, actions, id, d, service, now) && NoAuth(actions, id) && IsAuth(a, id)
    ensures Authenticated(sha, actions + [a], id, d, service, now == Some(service))
  {
    var more := actions + [a];
    forall i, j | 0 <= i < |more| && 0 <= j < |more| && more[i] == Lookup(id) && IsAuth(more[j], id)
      ensures i < j && EntryAfter(sha, more[i + 1..j], d, Some(service)) == now
    {
      assert j == |actions| && more[i + 1..j] == actions[i + 1..];
    }
    var k :| 0 <= k < |actions| && actions[k] == Lookup(id);
    assert Span(more, id, k, |actions|);
  }

  lemma LaterActionsIrrelevant(sha: Sha, actions: seq<Action>, id: nat, d: Digest, service: ServerService,
                               current: bool, a: Action)
    requires Authenticated(sha, actions, id, d, service, current) && a != Lookup(id) && !IsAuth(a, id)
    ensures Authenticated(sha, actions + [a], id, d, service, current)
  {
    var more := actions + [a];
    forall i, j | 0 <= i < |more| && 0 <= j < |more| && more[i] == Lookup(id) && IsAuth(more[j], id)
      ensures i < j && (current <==> EntryAfter(sha, more[i + 1..j], d, Some(service)) == Some(service))
    {
      assert actions[i] == Lookup(id) && IsAuth(actions[j], id) && i < j;
      assert more[i + 1..j] == actions[i + 1..j];
    }
    var i, j :| Span(actions, id, i, j);
    assert Span(more, id, i, j);
  }

  lemma StepKeepsHistory(sha: Sha, actions: seq<Action>, s: State, a: Action, id: nat)
    requires Enabled(s, a) && History(sha, actions, s, id)
    ensures History(sha, actions + [a], Next(sha, s, a), id)
  {
    if id in s.handshakes {
      var h := s.handshakes[id];
      StepChangesEntry(sha, s, a, h.digest);
      match h.phase {
        case Greeted =>
          if a == Lookup(id) && h.digest in s.services {
            LookupRecorded(sha, actions, id, h.digest, s.services[h.digest]);
          }
        case AwaitAuth(service) =>
          if IsAuth(a, id) {
            AuthRecorded(sha, actions, id, h.digest, service, Entry(s.services, h.digest), a);
          } else {
            WaitRecorded(sha, actions, id, h.digest, service, Entry(s.services, h.digest), a);
          }
        case Installed(service, current) =>
          LaterActionsIrrelevant(sha, actions, id, h.digest, service, current, a);
        case Closed =>
      }
    }
  }

  /** The last action of a run and the state before it. */
  lemma {:induction false} LastStep(sha: Sha, s: State, actions: seq<Action>, t: State) returns (m: State)
    requires actions != [] && Run(sha, s, actions, t)
    ensures Run(sha, s, actions[..|actions| - 1], m)
    ensures Enabled(m, actions[|actions| - 1]) && t == Next(sha, m, actions[|actions| - 1])
    decreases |actions|
  {
    var next := Next(sha, s, actions[0]);
    if |actions| == 1 {
      m := s;
    } else {
      m := LastStep(sha, next, actions[1..], t);
      var init := actions[..|actions| - 1];
      assert init[1..] == actions[1..][..|actions| - 2];
    }
  }

  lemma {:induction false} Histories(sha: Sha, services: map<Digest, ServerService>, actions: seq<Action>, t: State,
                                     id: nat)
    requires Run(sha, Init(services), actions, t)
    ensures History(sha, actions, t, id)
    decreases |actions|
  {
    if actions == [] {
    } else {
      var init, last := actions[..|actions| - 1], actions[|actions| - 1];
      var m := LastStep(sha, Init(services), actions, t);
      Histories(sha, services, init, m, id);
      StepKeepsHistory(sha, init, m, last, id);
      assert actions == init + [last];
    }
  }

  /** In every reachable state, outside a reload of its service, a channel runs with the configuration in the table if
      and only if the reloads between its handshake's lookup and authentication left that configuration in the table. */
  lemma CurrentExactlyIfNotReloadedInBetween(sha: Sha, services: map<Digest, ServerService>, actions: seq<Action>,
                                             t: State, x: Triple<Digest, Digest, Handle>)
    requires Run(sha, Init(services), actions, t) && CollisionFree(sha, t.hashed)
    requires x in t.channels && !(t.reload.Dropping? && t.reload.digest == x.k1)
    ensures exists i, j :: Span(actions, x.v.id, i, j)
    ensures forall i, j :: Span(actions, x.v.id, i, j) ==>
      (Entry(t.services, x.k1) == Some(x.v.service)
       <==> EntryAfter(sha, actions[i + 1..j], x.k1, Some(x.v.service)) == Some(x.v.service))
  {
    InitOk(sha, services);
    RegistrySafety(sha, Init(services), actions, t);
    Histories(sha, services, actions, t, x.v.id);
  }

  /** "A channel runs with the configuration in the table" is not an invariant: a reload that completes between a
      handshake's lookup and its authentication leaves a channel with the replaced configuration, whatever the hash. */
  lemma StaleHandleReachable(sha: Sha)
    returns (services: map<Digest, ServerService>, actions: seq<Action>, t: State)
    ensures Run(sha, Init(services), actions, t) && t.reload.Idle?
    ensures exists x :: x in t.channels && x.k1 in t.services && t.services[x.k1] != x.v.service
  {
    var before := ServerService([1], Tcp, None, Some([7]), None, None, None, []);
    var after := before.(token := Some([8]));
    var digest := sha(before.name);
    var nonce: Bytes := seq(HASH_WIDTH, i => 0);
    services := map[digest := before];
    var key := sha(Preimage(before, nonce));
    var a0, a1, a2, a4 := Hello(0, digest, nonce), Lookup(0), ReloadTable(Add(after)), Auth(0, key, true);
    var s1 := Next(sha, Init(services), a0);
    var s2 := Next(sha, s1, a1);
    var s3 := Next(sha, s2, a2);
    var s4 := Next(sha, s3, ReloadDrop);
    t := Next(sha, s4, a4);
    actions := [a0, a1, a2, ReloadDrop, a4];
    assert Run(sha, t, [], t);
    assert Run(sha, s4, actions[4..], t) by { assert actions[4..][1..] == []; }
    assert Run(sha, s3, actions[3..], t) by { assert actions[3..][1..] == actions[4..]; }
    assert Run(sha, s2, actions[2..], t) by { assert actions[2..][1..] == actions[3..]; }
    assert Run(sha, s1, actions[1..], t) by { assert actions[1..][1..] == actions[2..]; }
    assert s4.channels == {};
    assert Triple(digest, key, Handle(0, before)) in t.channels;
  }
}
