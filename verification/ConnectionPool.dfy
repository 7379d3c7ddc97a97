/** The data-channel pool of one TCP-like service while its control channel is up.

    Five tasks run concurrently: the visitor listener, the pool loop (both only if the service has an address to listen
    on), the control channel writer, the client's command loop with one task per command, and the server's data-channel
    handshakes.  Each of their atomic
    moves is an `Action`; a run is any interleaving of enabled actions. */
module ConnectionPool {
  import opened Basics

  /** Capacity of the visitor queue; the data-channel queue holds twice as many. */
  const CHAN_SIZE: nat := 2048
  const DATA_CHAN_CAPACITY: nat := 2 * CHAN_SIZE

  type Visitor = nat
  type Channel = nat

  datatype Pairing = Pairing(visitor: Visitor, channel: Channel)

  datatype Service = Service(
    poolSize: nat,              // channels requested in advance
    vhost: bool,                // an HTTP(S) service: the vhost listener may request channels too
    listening: bool)            // it has an address of its own, so a listener and a pool loop

  datatype State = State(
    service: Service,
    pending: nat,               // requests the control channel has not finished writing
    inFlight: nat,              // CreateDataChannel commands written and not yet read by the client
    opening: nat,               // client tasks whose connection has not been recognised by the server
    routing: nat,               // handshakes that hold the registry's read guard until their connection is queued
    lost: nat,                  // client tasks that gave up, or whose connection was never recognised
    queue: seq<Channel>,        // the bounded data-channel queue
    held: Option<Visitor>,      // accepted, its request sent, waiting for room in the visitor queue
    visitors: seq<Visitor>,     // the bounded visitor queue
    current: Option<Visitor>,   // the visitor the pool loop is serving
    inHand: Option<Channel>,    // the channel it received for that visitor and is writing the start command to
    extra: nat,                 // history: requests made by the vhost listener
    accepted: seq<Visitor>,     // history: visitors in the order they were accepted
    delivered: seq<Channel>,    // history: channels in the order they were queued
    taken: seq<Channel>,        // history: channels in the order the pool loop was done with them
    paired: seq<Pairing>)       // history: visitors and the channel each was joined to

  datatype Action =
    | WriteCommand              // control channel: one request becomes one CreateDataChannel command
    | ReadCommand               // client: one command spawns one task
    | Arrive                    // server: the hello of a client connection is matched to this service's handle
    | Deliver(channel: Channel) // server: that connection is put on the queue
    | Lose                      // the client's attempt or its connection fails before that
    | Accept(visitor: Visitor)  // listener: accept a visitor and request one channel for it
    | EnqueueVisitor            // listener: hand the visitor over
    | TakeVisitor               // pool loop: next visitor
    | TakeChannel               // pool loop: next channel for that visitor
    | PairOk                    // pool loop: the start command is written, forwarding begins
    | PairFail                  // pool loop: the write fails, one more channel is requested
    | VhostRequest              // vhost listener: request a channel for an HTTP request

  /** `ControlChannelHandle::new` queues one request per pool slot before anything runs. */
  function Init(service: Service): State {
    State(service, service.poolSize, 0, 0, 0, 0, [], None, [], None, None, 0, [], [], [], [])
  }

  predicate Enabled(s: State, a: Action) {
    match a
    case WriteCommand => s.pending > 0
    case ReadCommand => s.inFlight > 0
    case Arrive => s.opening > 0
    case Deliver(_) => s.routing > 0 && |s.queue| < DATA_CHAN_CAPACITY
    case Lose => s.opening > 0
    case Accept(_) => s.service.listening && s.held.None?
    case EnqueueVisitor => s.held.Some? && |s.visitors| < CHAN_SIZE
    case TakeVisitor => s.service.listening && s.current.None? && s.visitors != []
    case TakeChannel => s.service.listening && s.current.Some? && s.inHand.None? && s.queue != []
    case PairOk => s.current.Some? && s.inHand.Some?
    case PairFail => s.current.Some? && s.inHand.Some?
    case VhostRequest => s.service.vhost
  }

  function Next(s: State, a: Action): State
    requires Enabled(s, a)
  {
    match a
    case WriteCommand => s.(pending := s.pending - 1, inFlight := s.inFlight + 1)
    case ReadCommand => s.(inFlight := s.inFlight - 1, opening := s.opening + 1)
    case Arrive => s.(opening := s.opening - 1, routing := s.routing + 1)
    case Deliver(ch) => s.(routing := s.routing - 1, queue := s.queue + [ch], delivered := s.delivered + [ch])
    case Lose => s.(opening := s.opening - 1, lost := s.lost + 1)
    case Accept(v) => s.(pending := s.pending + 1, held := Some(v), accepted := s.accepted + [v])
    case EnqueueVisitor => s.(held := None, visitors := s.visitors + [s.held.value])
    case TakeVisitor => s.(current := Some(s.visitors[0]), visitors := s.visitors[1..])
    case TakeChannel => s.(queue := s.queue[1..], inHand := Some(s.queue[0]))
    case PairOk =>
      s.(inHand := None, taken := s.taken + [s.inHand.value], current := None,
         paired := s.paired + [Pairing(s.current.value, s.inHand.value)])
    case PairFail => s.(inHand := None, taken := s.taken + [s.inHand.value], pending := s.pending + 1)
    case VhostRequest => s.(pending := s.pending + 1, extra := s.extra + 1)
  }

  /** `actions` leads from `s` to `t`. */
  ghost predicate Run(s: State, actions: seq<Action>, t: State)
    decreases |actions|
  {
    if actions == [] then s == t
    else Enabled(s, actions[0]) && Run(Next(s, actions[0]), actions[1..], t)
  }

  // ---------------------------------------------------------------- what every run keeps

  function One<T>(o: Option<T>): nat { if o.Some? then 1 else 0 }

  function AsSeq<T>(o: Option<T>): seq<T> { if o.Some? then [o.value] else [] }

  /** Visitors accepted and not yet joined to a channel. */
  function Waiting(s: State): nat { One(s.held) + |s.visitors| + One(s.current) }

  /** Channels that exist or are on their way. */
  function Supply(s: State): nat { s.pending + s.inFlight + s.opening + s.routing + |s.queue| + One(s.inHand) }

  function VisitorsOf(ps: seq<Pairing>): (vs: seq<Visitor>)
    ensures |vs| == |ps|
    ensures forall i :: 0 <= i < |ps| ==> vs[i] == ps[i].visitor
  {
    seq(|ps|, i requires 0 <= i < |ps| => ps[i].visitor)
  }

  ghost predicate SubsequenceOf(ps: seq<Pairing>, chs: seq<Channel>)
    decreases |chs|
  {
    if ps == [] then true
    else if chs == [] then false
    else if ps[|ps| - 1].channel == chs[|chs| - 1] && SubsequenceOf(ps[..|ps| - 1], chs[..|chs| - 1]) then true
    else SubsequenceOf(ps, chs[..|chs| - 1])
  }

  /** A channel for every pool slot, every vhost request and every waiting visitor, or it was lost. */
  ghost predicate Conserved(s: State) {
    && Supply(s) + s.lost == s.service.poolSize + s.extra + Waiting(s)
    && (!s.service.vhost ==> s.extra == 0)
    && (!s.service.listening ==> Waiting(s) == 0)
    && (s.inHand.Some? ==> s.current.Some?)
    && |s.visitors| <= CHAN_SIZE
    && |s.queue| <= DATA_CHAN_CAPACITY
  }

  /** No visitor is dropped, and visitors are served in the order they were accepted. */
  ghost predicate FirstComeFirstServed(s: State) {
    s.accepted == VisitorsOf(s.paired) + AsSeq(s.current) + s.visitors + AsSeq(s.held)
  }

  /** No channel is dropped from the queue, and each serves at most one visitor. */
  ghost predicate ChannelsUsedOnce(s: State) {
    s.delivered == s.taken + AsSeq(s.inHand) + s.queue && SubsequenceOf(s.paired, s.taken)
  }

  ghost predicate Inv(s: State) {
    Conserved(s) && FirstComeFirstServed(s) && ChannelsUsedOnce(s)
  }

  lemma StepKeepsConserved(s: State, a: Action)
    requires Conserved(s) && Enabled(s, a)
    ensures Conserved(Next(s, a)) && Next(s, a).service == s.service
  {
    match a {
      case Accept(_) =>
      case EnqueueVisitor =>
      case TakeVisitor =>
      case TakeChannel =>
      case PairOk =>
      case PairFail =>
      case _ =>
    }
  }

  lemma StepKeepsOrder(s: State, a: Action)
    requires FirstComeFirstServed(s) && Enabled(s, a)
    ensures FirstComeFirstServed(Next(s, a))
  {
    var served := VisitorsOf(s.paired);
    match a {
      case PairOk => assert VisitorsOf(Next(s, a).paired) == served + [s.current.value];
      case TakeVisitor =>
        assert s.visitors == [s.visitors[0]] + s.visitors[1..];
        assert served + [] + ([s.visitors[0]] + s.visitors[1..]) == served + [s.visitors[0]] + s.visitors[1..];
      case _ =>
    }
  }

  lemma SubsequenceSkips(ps: seq<Pairing>, chs: seq<Channel>, ch: Channel)
    requires SubsequenceOf(ps, chs)
    ensures SubsequenceOf(ps, chs + [ch])
  {
    assert (chs + [ch])[..|chs|] == chs;
  }

  lemma SubsequenceTakes(ps: seq<Pairing>, chs: seq<Channel>, p: Pairing)
    requires SubsequenceOf(ps, chs)
    ensures SubsequenceOf(ps + [p], chs + [p.channel])
  {
    assert (chs + [p.channel])[..|chs|] == chs && (ps + [p])[..|ps|] == ps;
  }

  lemma StepKeepsChannels(s: State, a: Action)
    requires ChannelsUsedOnce(s) && Enabled(s, a)
    ensures ChannelsUsedOnce(Next(s, a))
  {
    match a {
      case PairOk => SubsequenceTakes(s.paired, s.taken, Pairing(s.current.value, s.inHand.value));
      case PairFail => SubsequenceSkips(s.paired, s.taken, s.inHand.value);
      case TakeChannel => assert s.queue == [s.queue[0]] + s.queue[1..];
      case Deliver(ch) =>
        var before := s.taken + AsSeq(s.inHand);
        assert before + s.queue + [ch] == before + (s.queue + [ch]);
      case _ =>
    }
  }

  lemma StepKeepsInv(s: State, a: Action)
    requires Inv(s) && Enabled(s, a)
    ensures Inv(Next(s, a)) && Next(s, a).service == s.service
  {
    StepKeepsConserved(s, a);
    StepKeepsOrder(s, a);
    StepKeepsChannels(s, a);
  }

  /** Pool conservation and first-come-first-served order in every reachable state. */
  lemma {:induction false} Conservation(s: State, actions: seq<Action>, t: State)
    requires Inv(s) && Run(s, actions, t)
    ensures Inv(t) && t.service == s.service
    decreases |actions|
  {
    if actions == [] {
    } else {
      StepKeepsInv(s, actions[0]);
      Conservation(Next(s, actions[0]), actions[1..], t);
    }
  }

  lemma Reachable(service: Service, actions: seq<Action>, t: State)
    requires Run(Init(service), actions, t)
    ensures Inv(t) && t.service == service
  {
    Conservation(Init(service), actions, t);
  }

  lemma {:induction false} SubsequenceMember(ps: seq<Pairing>, chs: seq<Channel>, k: nat)
    requires SubsequenceOf(ps, chs) && k < |ps|
    ensures ps[k].channel in chs
    decreases |chs|
  {
    var init := chs[..|chs| - 1];
    if ps[|ps| - 1].channel == chs[|chs| - 1] && SubsequenceOf(ps[..|ps| - 1], init) {
      if k < |ps| - 1 {
        SubsequenceMember(ps[..|ps| - 1], init, k);
      }
    } else {
      SubsequenceMember(ps, init, k);
    }
  }

  lemma {:induction false} SubsequenceDistinct(ps: seq<Pairing>, chs: seq<Channel>, i: nat, j: nat)
    requires SubsequenceOf(ps, chs) && Distinct(chs) && i < j < |ps|
    ensures ps[i].channel != ps[j].channel
    decreases |chs|
  {
    var init := chs[..|chs| - 1];
    if ps[|ps| - 1].channel == chs[|chs| - 1] && SubsequenceOf(ps[..|ps| - 1], init) {
      if j < |ps| - 1 {
        SubsequenceDistinct(ps[..|ps| - 1], init, i, j);
      } else {
        SubsequenceMember(ps[..|ps| - 1], init, i);
      }
    } else {
      SubsequenceDistinct(ps, init, i, j);
    }
  }

  /** What the pool loop is done with is neither queued nor in its hands. */
  lemma TakenIsGone(s: State, c: Channel)
    requires s.delivered == s.taken + AsSeq(s.inHand) + s.queue && Distinct(s.delivered) && c in s.taken
    ensures c !in s.queue && s.inHand != Some(c)
  {
    var k :| 0 <= k < |s.taken| && s.taken[k] == c;
    var rest := AsSeq(s.inHand) + s.queue;
    assert s.delivered == s.taken + rest && s.delivered[k] == c;
    forall i | 0 <= i < |rest| ensures rest[i] != c {
      assert s.delivered[|s.taken| + i] == rest[i];
    }
    assert s.inHand.Some? ==> rest[0] == s.inHand.value;
    forall i | 0 <= i < |s.queue| ensures s.queue[i] != c {
      assert rest[|AsSeq(s.inHand)| + i] == s.queue[i];
    }
  }

  /** In every reachable state whose delivered connections are different connections, none was given to two visitors,
      and none that was given to a visitor is still queued or in the hands of the pool loop. */
  lemma NoChannelPairedTwice(service: Service, actions: seq<Action>, t: State, i: nat, j: nat)
    requires Run(Init(service), actions, t) && Distinct(t.delivered) && i < |t.paired|
    ensures i < j < |t.paired| ==> t.paired[i].channel != t.paired[j].channel
    ensures t.paired[i].channel !in t.queue && t.inHand != Some(t.paired[i].channel)
  {
    Reachable(service, actions, t);
    SubsequenceMember(t.paired, t.taken, i);
    TakenIsGone(t, t.paired[i].channel);
    if i < j < |t.paired| {
      assert t.taken == t.delivered[..|t.taken|];
      SubsequenceDistinct(t.paired, t.taken, i, j);
    }
  }

  // ---------------------------------------------------------------- progress

  /** Moves the system makes on its own: no new visitor or request arrives and no connection is lost. */
  predicate Internal(a: Action) {
    !a.Lose? && !a.Accept? && !a.VhostRequest?
  }

  ghost predicate Quiescent(s: State) {
    forall a :: Internal(a) ==> !Enabled(s, a)
  }

  lemma RestMeansNoSupply(s: State)
    requires Conserved(s) && Waiting(s) > 0 && Quiescent(s)
    ensures Supply(s) == 0
  {
    assert !Enabled(s, WriteCommand) && !Enabled(s, ReadCommand) && !Enabled(s, Arrive);
    assert !Enabled(s, PairOk) && !Enabled(s, TakeChannel);
    assert !Enabled(s, EnqueueVisitor) && !Enabled(s, TakeVisitor);
    assert s.current.Some? && s.queue == [];
    assert !Enabled(s, Deliver(0));
  }

  /** The system comes to rest with a visitor still waiting exactly when losses have used up the whole pool and a
      channel for every waiting visitor: until then a visitor always has a channel coming. */
  lemma StuckExactlyWhenPoolExhausted(service: Service, actions: seq<Action>, t: State)
    requires Run(Init(service), actions, t)
    requires Waiting(t) > 0
    ensures Supply(t) == 0 <==> t.lost == service.poolSize + t.extra + Waiting(t)
    ensures t.lost <= service.poolSize ==> Supply(t) > 0
    ensures Quiescent(t) ==> Supply(t) == 0
  {
    Reachable(service, actions, t);
    if Quiescent(t) {
      RestMeansNoSupply(t);
    }
  }

  function Work(s: State): nat {
    6 * s.pending + 5 * s.inFlight + 4 * s.opening + 3 * s.routing + 2 * |s.queue| + One(s.inHand)
    + 3 * One(s.held) + 2 * |s.visitors| + One(s.current)
  }

  function Failures(actions: seq<Action>): nat {
    if actions == [] then 0 else (if actions[0].PairFail? then 1 else 0) + Failures(actions[1..])
  }

  lemma InternalStepWorks(s: State, a: Action)
    requires Enabled(s, a) && Internal(a)
    ensures 1 + Work(Next(s, a)) <= Work(s) + if a.PairFail? then 6 else 0
  {
  }

  ghost predicate InternalRun(s: State, actions: seq<Action>, t: State) {
    Run(s, actions, t) && forall a :: a in actions ==> Internal(a)
  }

  lemma {:induction false} InternalRunsEnd(s: State, actions: seq<Action>, t: State)
    requires InternalRun(s, actions, t)
    ensures |actions| + Work(t) <= Work(s) + 6 * Failures(actions)
    decreases |actions|
  {
    if actions == [] {
    } else {
      assert actions[0] in actions;
      InternalStepWorks(s, actions[0]);
      InternalRunsEnd(Next(s, actions[0]), actions[1..], t);
    }
  }

  lemma {:induction false} InternalKeepsArrivals(s: State, actions: seq<Action>, t: State)
    requires InternalRun(s, actions, t)
    ensures t.accepted == s.accepted && t.lost == s.lost && t.extra == s.extra
    decreases |actions|
  {
    if actions == [] {
    } else {
      assert actions[0] in actions;
      InternalKeepsArrivals(Next(s, actions[0]), actions[1..], t);
    }
  }

  lemma ServedExactlyIfNobodyWaits(s: State)
    requires FirstComeFirstServed(s)
    ensures VisitorsOf(s.paired) == s.accepted <==> Waiting(s) == 0
  {
    assert |VisitorsOf(s.paired)| + Waiting(s) == |s.accepted|;
  }

  /** Once arrivals and losses stop, the system can only make a bounded number of moves (each failed channel is
      re-requested and costs six more), and when it cannot move any more every accepted visitor has been served if and
      only if no more channels had been lost than there are pool slots and vhost requests. */
  lemma EveryVisitorServed(service: Service, before: seq<Action>, s: State, actions: seq<Action>, t: State)
    requires Run(Init(service), before, s) && InternalRun(s, actions, t)
    ensures |actions| <= Work(s) + 6 * Failures(actions)
    ensures Quiescent(t) ==> (VisitorsOf(t.paired) == s.accepted <==> s.lost <= service.poolSize + s.extra)
  {
    InternalRunsEnd(s, actions, t);
    InternalKeepsArrivals(s, actions, t);
    RunConcat(Init(service), before, s, actions, t);
    Reachable(service, before + actions, t);
    ServedExactlyIfNobodyWaits(t);
    if Quiescent(t) && Waiting(t) > 0 {
      RestMeansNoSupply(t);
    }
  }

  lemma {:induction false} RunConcat(s: State, xs: seq<Action>, t: State, ys: seq<Action>, u: State)
    requires Run(s, xs, t) && Run(t, ys, u)
    ensures Run(s, xs + ys, u)
    decreases |xs|
  {
    if xs == [] {
      assert xs + ys == ys;
    } else {
      RunConcat(Next(s, xs[0]), xs[1..], t, ys, u);
      assert (xs + ys)[1..] == xs[1..] + ys;
    }
  }

  // ---------------------------------------------------------------- the queue bound is tight

  /** A handshake that holds the registry's read guard finds the queue full. */
  predicate DeliveryBlocked(s: State) {
    s.routing > 0 && |s.queue| == 4096
  }

  ghost predicate CanBlock(service: Service) {
    exists actions, t :: Run(Init(service), actions, t) && DeliveryBlocked(t)
  }

  /** The data-channel queue can be full when a channel is delivered exactly when the vhost listener requests channels
      too or the pool has more than 2046 slots (4096 for a service without a listener). */
  lemma QueueBoundIsTight(service: Service)
    ensures CanBlock(service) <==> service.vhost || service.poolSize > if service.listening then 2046 else 4096
  {
    var s := Init(service);
    if CanBlock(service) {
      var actions, t :| Run(s, actions, t) && DeliveryBlocked(t);
      Reachable(service, actions, t);
    }
    if service.vhost {
      var xs, t := VhostBurst(s, DATA_CHAN_CAPACITY + 1);
      var ys, u := DeliverAll(t);
      RunConcat(s, xs, t, ys, u);
    } else if service.poolSize > if service.listening then 2046 else 4096 {
      var xs, t := [], s;
      if service.listening {
        xs, t := VisitorBurst(s);
      }
      var ys, u := DeliverAll(t);
      RunConcat(s, xs, t, ys, u);
    }
  }

  lemma RunOne(s: State, a: Action)
    requires Enabled(s, a)
    ensures Run(s, [a], Next(s, a))
  {
    assert [a][1..] == [];
  }

  lemma {:induction false} VhostBurst(s: State, n: nat) returns (actions: seq<Action>, t: State)
    requires s.service.vhost
    ensures Run(s, actions, t)
    ensures t.pending == s.pending + n && t.queue == s.queue
    decreases n
  {
    if n == 0 {
      actions, t := [], s;
    } else {
      var xs, m := VhostBurst(Next(s, VhostRequest), n - 1);
      RunOne(s, VhostRequest);
      RunConcat(s, [VhostRequest], Next(s, VhostRequest), xs, m);
      actions, t := [VhostRequest] + xs, m;
    }
  }

  lemma {:induction false} QueueVisitors(s: State, n: nat) returns (actions: seq<Action>, t: State)
    requires s.service.listening && s.held.None? && |s.visitors| + n <= CHAN_SIZE
    ensures Run(s, actions, t)
    ensures t.pending == s.pending + n && t.queue == s.queue && t.held.None? && t.service == s.service
    decreases n
  {
    if n == 0 {
      actions, t := [], s;
    } else {
      var xs, m := QueueOneVisitor(s);
      var ys, u := QueueVisitors(m, n - 1);
      RunConcat(s, xs, m, ys, u);
      actions, t := xs + ys, u;
    }
  }

  lemma QueueOneVisitor(s: State) returns (actions: seq<Action>, t: State)
    requires s.service.listening && s.held.None? && |s.visitors| < CHAN_SIZE
    ensures Run(s, actions, t)
    ensures t == s.(pending := s.pending + 1, visitors := s.visitors + [0], accepted := s.accepted + [0])
  {
    var m := Next(s, Accept(0));
    RunOne(s, Accept(0));
    RunOne(m, EnqueueVisitor);
    RunConcat(s, [Accept(0)], m, [EnqueueVisitor], Next(m, EnqueueVisitor));
    actions, t := [Accept(0)] + [EnqueueVisitor], Next(m, EnqueueVisitor);
  }

  /** One visitor in the pool loop, a full visitor queue and one more in the listener: 2050 requests. */
  lemma VisitorBurst(s: State) returns (actions: seq<Action>, t: State)
    requires s.service.listening && s.held.None? && s.visitors == [] && s.current.None?
    ensures Run(s, actions, t)
    ensures t.pending == s.pending + CHAN_SIZE + 2 && t.queue == s.queue
  {
    var xs, a := QueueOneVisitor(s);
    var b := Next(a, TakeVisitor);
    RunOne(a, TakeVisitor);
    RunConcat(s, xs, a, [TakeVisitor], b);
    var ys, c := QueueVisitors(b, CHAN_SIZE);
    RunConcat(s, xs + [TakeVisitor], b, ys, c);
    var d := Next(c, Accept(0));
    RunOne(c, Accept(0));
    RunConcat(s, xs + [TakeVisitor] + ys, c, [Accept(0)], d);
    actions, t := xs + [TakeVisitor] + ys + [Accept(0)], d;
  }

  /** Move `n` requests through the control channel and the client into handshakes. */
  lemma {:induction false} OpenAll(s: State, n: nat) returns (actions: seq<Action>, t: State)
    requires s.pending >= n
    ensures Run(s, actions, t)
    ensures t.routing == s.routing + n && t.queue == s.queue
    decreases n
  {
    if n == 0 {
      actions, t := [], s;
    } else {
      var a := Next(s, WriteCommand);
      var b := Next(a, ReadCommand);
      var c := Next(b, Arrive);
      RunOne(s, WriteCommand);
      RunOne(a, ReadCommand);
      RunOne(b, Arrive);
      RunConcat(s, [WriteCommand], a, [ReadCommand], b);
      RunConcat(s, [WriteCommand] + [ReadCommand], b, [Arrive], c);
      var xs, u := OpenAll(c, n - 1);
      RunConcat(s, [WriteCommand] + [ReadCommand] + [Arrive], c, xs, u);
      actions, t := [WriteCommand] + [ReadCommand] + [Arrive] + xs, u;
    }
  }

  lemma {:induction false} FillQueue(s: State, n: nat) returns (actions: seq<Action>, t: State)
    requires s.routing >= n && |s.queue| + n <= DATA_CHAN_CAPACITY
    ensures Run(s, actions, t)
    ensures t.routing == s.routing - n && |t.queue| == |s.queue| + n
    decreases n
  {
    if n == 0 {
      actions, t := [], s;
    } else {
      var m := Next(s, Deliver(0));
      RunOne(s, Deliver(0));
      var xs, u := FillQueue(m, n - 1);
      RunConcat(s, [Deliver(0)], m, xs, u);
      actions, t := [Deliver(0)] + xs, u;
    }
  }

  lemma DeliverAll(s: State) returns (actions: seq<Action>, t: State)
    requires s.queue == [] && s.pending > DATA_CHAN_CAPACITY
    ensures Run(s, actions, t) && DeliveryBlocked(t)
  {
    var xs, m := OpenAll(s, DATA_CHAN_CAPACITY + 1);
    var ys, u := FillQueue(m, DATA_CHAN_CAPACITY);
    RunConcat(s, xs, m, ys, u);
    actions, t := xs + ys, u;
  }

  // ---------------------------------------------------------------- how long a delivery is blocked

  lemma {:induction false} BlockedForever(s: State, actions: seq<Action>, t: State)
    requires !s.service.listening && DeliveryBlocked(s) && Run(s, actions, t)
    ensures DeliveryBlocked(t) && t.queue == s.queue
    decreases |actions|
  {
    if actions == [] {
    } else {
      BlockedForever(Next(s, actions[0]), actions[1..], t);
    }
  }

  lemma RunThen(s: State, actions: seq<Action>, t: State, a: Action)
    requires Run(s, actions, t) && Enabled(t, a)
    ensures Run(s, actions + [a], Next(t, a))
  {
    RunOne(t, a);
    RunConcat(s, actions, t, [a], Next(t, a));
  }

  /** An idle pool loop gets a visitor, a new one if need be. */
  lemma GetVisitor(s: State) returns (actions: seq<Action>, t: State)
    requires s.service.listening && s.current.None? && s.inHand.None?
    ensures Run(s, actions, t) && t.service == s.service && t.queue == s.queue && t.current.Some? && t.inHand.None?
  {
    actions, t := [], s;
    if t.visitors == [] {
      if t.held.None? {
        RunThen(s, actions, t, Accept(0));
        actions, t := actions + [Accept(0)], Next(t, Accept(0));
      }
      RunThen(s, actions, t, EnqueueVisitor);
      actions, t := actions + [EnqueueVisitor], Next(t, EnqueueVisitor);
    }
    RunThen(s, actions, t, TakeVisitor);
    actions, t := actions + [TakeVisitor], Next(t, TakeVisitor);
  }

  /** A pool loop can always take a channel from the queue, once it is done with the one in its hands. */
  lemma GetChannel(s: State) returns (actions: seq<Action>, t: State)
    requires s.service.listening && s.queue != [] && (s.inHand.Some? ==> s.current.Some?)
    ensures Run(s, actions, t) && t.queue == s.queue[1..]
  {
    actions, t := [], s;
    if t.inHand.Some? {
      RunThen(s, actions, t, PairOk);
      actions, t := actions + [PairOk], Next(t, PairOk);
    }
    if t.current.None? {
      var more, u := GetVisitor(t);
      RunConcat(s, actions, t, more, u);
      actions, t := actions + more, u;
    }
    RunThen(s, actions, t, TakeChannel);
    actions, t := actions + [TakeChannel], Next(t, TakeChannel);
  }

  lemma StepTo(s: State, actions: seq<Action>, t: State, a: Action, u: State) returns (more: seq<Action>)
    requires Run(s, actions, t) && Enabled(t, a) && Next(t, a) == u
    ensures Run(s, more, u)
  {
    RunThen(s, actions, t, a);
    more := actions + [a];
  }

  lemma VisitorReachesLoop(s: State, v: Visitor) returns (actions: seq<Action>)
    requires s.service.listening && s.held.None? && s.visitors == [] && s.current.None?
    ensures Run(s, actions, s.(pending := s.pending + 1, current := Some(v), accepted := s.accepted + [v]))
  {
    var t := s.(pending := s.pending + 1, accepted := s.accepted + [v]);
    assert s.visitors + [v] == [v] && [v][1..] == s.visitors;
    actions := StepTo(s, [], s, Accept(v), t.(held := Some(v)));
    actions := StepTo(s, actions, t.(held := Some(v)), EnqueueVisitor, t.(visitors := [v]));
    actions := StepTo(s, actions, t.(visitors := [v]), TakeVisitor, t.(current := Some(v)));
  }

  lemma ChannelIsLost(from: State, before: seq<Action>, s: State) returns (actions: seq<Action>)
    requires Run(from, before, s.(pending := s.pending + 1))
    ensures Run(from, actions, s.(lost := s.lost + 1))
  {
    actions := StepTo(from, before, s.(pending := s.pending + 1), WriteCommand, s.(inFlight := s.inFlight + 1));
    actions := StepTo(from, actions, s.(inFlight := s.inFlight + 1), ReadCommand, s.(opening := s.opening + 1));
    actions := StepTo(from, actions, s.(opening := s.opening + 1), Lose, s.(lost := s.lost + 1));
  }

  /** "Every accepted visitor is served" fails: without a pool, a visitor whose one channel is lost waits for ever. */
  lemma VisitorLeftWaiting() returns (actions: seq<Action>, t: State)
    ensures Run(Init(Service(0, false, true)), actions, t) && Quiescent(t) && t.accepted == [7] && t.paired == []
  {
    var s := Init(Service(0, false, true));
    actions := VisitorReachesLoop(s, 7);
    t := s.(current := Some(7), accepted := s.accepted + [7]);
    actions := ChannelIsLost(s, actions, t);
    t := t.(lost := 1);
  }

  ghost predicate CanGoOn(s: State) {
    exists more, t :: Run(s, more, t) && !DeliveryBlocked(t)
  }

  /** A blocked delivery, and with it the registry's read guard, can come free in some continuation if and only if the
      service has a listener of its own: without one no pool loop ever takes a channel from the queue. */
  lemma BlockedForeverExactlyWithoutListener(service: Service, actions: seq<Action>, s: State)
    requires Run(Init(service), actions, s) && DeliveryBlocked(s)
    ensures CanGoOn(s) <==> service.listening
  {
    Reachable(service, actions, s);
    if service.listening {
      var more, t := GetChannel(s);
    } else if CanGoOn(s) {
      var more, t :| Run(s, more, t) && !DeliveryBlocked(t);
      BlockedForever(s, more, t);
    }
  }

  // ---------------------------------------------------------------- the pool loop

  /** How many channels at the head of the queue cannot be written to. */
  function LeadingBroken(queue: seq<Channel>, writable: Channel -> bool): (n: nat)
    ensures n <= |queue| && (n < |queue| ==> writable(queue[n]))
    ensures forall i :: 0 <= i < n ==> !writable(queue[i])
  {
    if queue == [] || writable(queue[0]) then 0 else 1 + LeadingBroken(queue[1..], writable)
  }

  lemma LeadingBrokenUnique(queue: seq<Channel>, writable: Channel -> bool, n: nat)
    requires n <= |queue| && (n < |queue| ==> writable(queue[n]))
    requires forall i :: 0 <= i < n ==> !writable(queue[i])
    ensures LeadingBroken(queue, writable) == n
  {
  }

  /** The state once `n` broken channels have been taken for the current visitor. */
  function AfterBroken(s: State, n: nat): State
    requires n <= |s.queue|
  {
    s.(pending := s.pending + n, queue := s.queue[n..], taken := s.taken + s.queue[..n])
  }

  /** The state once the current visitor has been joined to channel `n` of the queue. */
  function AfterJoin(s: State, n: nat): State
    requires s.current.Some? && n < |s.queue|
  {
    s.(current := None, pending := s.pending + n, queue := s.queue[n + 1..],
       taken := s.taken + s.queue[..n + 1], paired := s.paired + [Pairing(s.current.value, s.queue[n])])
  }

  /** The state in which the pool loop looks for a channel: it keeps the visitor it has, or takes the next one. */
  function Serving(s: State): State
    requires s.service.listening && (s.current.Some? || s.visitors != [])
  {
    if s.current.Some? then s else Next(s, TakeVisitor)
  }

  /** One turn of the inner loop: receive channel `n` and write the start command to it. */
  lemma TryChannel(s: State, actions: seq<Action>, n: nat, result: Action)
    requires s.service.listening && s.current.Some? && s.inHand.None? && n < |s.queue|
    requires result.PairOk? || result.PairFail?
    requires Run(s, actions, AfterBroken(s, n))
    ensures var t := Next(AfterBroken(s, n), TakeChannel);
      && Run(s, actions + [TakeChannel] + [result], Next(t, result))
      && Next(t, result) == if result.PairOk? then AfterJoin(s, n) else AfterBroken(s, n + 1)
  {
    var before := AfterBroken(s, n);
    var t := Next(before, TakeChannel);
    RunOne(before, TakeChannel);
    RunConcat(s, actions, before, [TakeChannel], t);
    RunOne(t, result);
    RunConcat(s, actions + [TakeChannel], t, [result], Next(t, result));
    assert s.taken + s.queue[..n] + [s.queue[n]] == s.taken + s.queue[..n + 1];
  }

  /** The inner loop, until the visitor is served or it has to wait: take channels until one can be written to and
      request a replacement for each that cannot.  The visitor is joined to the first writable channel, or every queued
      channel was broken and the visitor stays with the loop. */
  method FindChannel(s: State, writable: Channel -> bool) returns (t: State, ghost actions: seq<Action>)
    requires s.service.listening && s.inHand.None? && s.current.Some?
    ensures Run(s, actions, t)
    ensures var n := LeadingBroken(s.queue, writable);
      t == if n == |s.queue| then AfterBroken(s, n) else AfterJoin(s, n)
  {
    t, actions := s, [];
    ghost var n := 0;
    assert AfterBroken(s, 0) == s;
    var served := false;
    while !served && t.queue != []
      invariant 0 <= n <= |s.queue|
      invariant forall i :: 0 <= i < n ==> !writable(s.queue[i])
      invariant Run(s, actions, t)
      invariant if served then n < |s.queue| && writable(s.queue[n]) && t == AfterJoin(s, n) else t == AfterBroken(s, n)
      decreases !served, |t.queue|
    {
      var result := if writable(t.queue[0]) then PairOk else PairFail;
      TryChannel(s, actions, n, result);
      t, actions, served := Next(Next(t, TakeChannel), result), actions + [TakeChannel] + [result], result.PairOk?;
      if !served {
        n := n + 1;
      }
    }
    LeadingBrokenUnique(s.queue, writable, n);
  }

  /** The pool loop from any moment when it holds no channel: the next visitor is taken unless one is waiting already,
      so the loop goes on from where it had to wait when another channel arrives. */
  method ServeNext(s: State, writable: Channel -> bool) returns (t: State, ghost actions: seq<Action>)
    requires s.service.listening && s.inHand.None? && (s.current.Some? || s.visitors != [])
    ensures Run(s, actions, t)
    ensures var n := LeadingBroken(s.queue, writable);
      t == if n == |s.queue| then AfterBroken(Serving(s), n) else AfterJoin(Serving(s), n)
  {
    var u := s;
    ghost var first: seq<Action> := [];
    if s.current.None? {
      RunOne(s, TakeVisitor);
      u, first := Next(s, TakeVisitor), [TakeVisitor];
    }
    t, actions := FindChannel(u, writable);
    RunConcat(s, first, u, actions, t);
    actions := first + actions;
  }
}
