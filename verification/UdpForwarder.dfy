/** The client side of a UDP data channel: one reader loop, one forwarder task per source address, and the port map they
    share behind a read-write lock.

    The lock is fair, as tokio documents it: requests are granted in the order they were made, a read request also waits
    behind an earlier write request.  The reader keeps its first read guard while it asks for the second one. */
module UdpForwarder {
  import opened Basics

  /** Capacity of a forwarder's inbound queue. */
  const SENDQ: nat := 1024

  type Addr = nat
  type Id = nat

  datatype Packet = Packet(from: Addr, data: Bytes)

  datatype ForwarderPhase =
    | Running
    | Closing     // left its loop: idle timeout, receive error
    | Waiting     // asked for the write lock to remove its entry
    | Gone        // removed its entry and returned
    | Failed      // returned early on a send error, leaving its entry behind

  datatype Forwarder = Forwarder(from: Addr, phase: ForwarderPhase, inbound: seq<Bytes>)

  datatype ReaderPhase =
    | Idle
    | WantFirst(packet: Packet)                // asked for the first read guard
    | Found(packet: Packet)                    // an entry exists; the first guard is still held
    | WantWrite(packet: Packet)                // no entry; asked for the write lock
    | WantSecond(packet: Packet, holds: bool)  // asked for the second read guard, perhaps holding the first
    | Sending(packet: Packet)
    | Exited

  datatype Waiter = Reader | Remover(id: Id)

  /** A reply sent back towards the server, with the forwarder that produced it. */
  datatype Reply = Reply(id: Id, packet: Packet)

  datatype State = State(
    portMap: map<Addr, Id>,
    forwarders: map<Id, Forwarder>,
    reader: ReaderPhase,
    guards: nat,               // read guards the reader holds
    waiters: seq<Waiter>,      // the lock's queue
    outbound: seq<Reply>)

  const START: State := State(map[], map[], Idle, 0, [], [])

  datatype Action =
    | Receive(packet: Packet)
    | GrantFirst
    | AskSecond
    | GrantWrite(id: Id, connected: bool)   // `connected`: the local socket could be opened
    | GrantSecond
    | Send
    | Exit
    | Take(id: Id, ok: bool)                // forward one inbound datagram to the local service
    | Answer(id: Id, data: Bytes, ok: bool) // a datagram from the local service
    | Break(id: Id)
    | AskRemove(id: Id)
    | GrantRemove(id: Id)

  predicate Live(f: Forwarder) {
    f.phase.Running? || f.phase.Closing? || f.phase.Waiting?
  }

  predicate InPhase(s: State, id: Id, phase: ForwarderPhase) {
    id in s.forwarders && s.forwarders[id].phase == phase
  }

  predicate AtHead(s: State, w: Waiter) {
    s.waiters != [] && s.waiters[0] == w
  }

  /** Handing the packet to its forwarder would wait for room in the queue of a task that still exists. */
  predicate SendBlocks(s: State) {
    && s.reader.Sending? && s.reader.packet.from in s.portMap
    && s.portMap[s.reader.packet.from] in s.forwarders
    && var f := s.forwarders[s.portMap[s.reader.packet.from]];
       Live(f) && |f.inbound| >= SENDQ
  }

  predicate Enabled(s: State, a: Action) {
    match a
    case Receive(_) => s.reader.Idle?
    case GrantFirst => s.reader.WantFirst? && AtHead(s, Reader)
    case AskSecond => s.reader.Found?
    case GrantWrite(id, _) => s.reader.WantWrite? && AtHead(s, Reader) && s.guards == 0 && id !in s.forwarders
    case GrantSecond => s.reader.WantSecond? && AtHead(s, Reader)
    case Send => s.reader.Sending? && !SendBlocks(s)
    case Exit => s.reader.Idle?
    case Take(id, _) => InPhase(s, id, Running) && s.forwarders[id].inbound != []
    case Answer(id, _, _) => InPhase(s, id, Running)
    case Break(id) => InPhase(s, id, Running)
    case AskRemove(id) => InPhase(s, id, Closing)
    case GrantRemove(id) => InPhase(s, id, Waiting) && AtHead(s, Remover(id)) && s.guards == 0
  }

  function SetPhase(s: State, id: Id, phase: ForwarderPhase): map<Id, Forwarder>
    requires id in s.forwarders
  {
    s.forwarders[id := s.forwarders[id].(phase := phase)]
  }

  function Next(s: State, a: Action): State
    requires Enabled(s, a)
  {
    match a
    case Receive(p) => s.(reader := WantFirst(p), waiters := s.waiters + [Reader])
    case GrantFirst =>
      var p := s.reader.packet;
      if p.from in s.portMap then s.(reader := Found(p), guards := 1, waiters := s.waiters[1..])
      else s.(reader := WantWrite(p), waiters := s.waiters[1..] + [Reader])
    case AskSecond => s.(reader := WantSecond(s.reader.packet, true), waiters := s.waiters + [Reader])
    case GrantWrite(id, connected) =>
      var p := s.reader.packet;
      var t := s.(reader := WantSecond(p, false), waiters := s.waiters[1..] + [Reader]);
      if connected
      then t.(portMap := s.portMap[p.from := id], forwarders := s.forwarders[id := Forwarder(p.from, Running, [])])
      else t
    case GrantSecond => s.(reader := Sending(s.reader.packet), guards := s.guards + 1, waiters := s.waiters[1..])
    case Send =>
      var p := s.reader.packet;
      var t := s.(reader := Idle, guards := 0);
      if p.from in s.portMap && s.portMap[p.from] in s.forwarders && Live(s.forwarders[s.portMap[p.from]]) then
        var id := s.portMap[p.from];
        t.(forwarders := s.forwarders[id := s.forwarders[id].(inbound := s.forwarders[id].inbound + [p.data])])
      else t
    case Exit => s.(reader := Exited)
    case Take(id, ok) =>
      var f := s.forwarders[id];
      s.(forwarders := s.forwarders[id := f.(inbound := f.inbound[1..], phase := if ok then Running else Failed)])
    case Answer(id, data, ok) =>
      if ok then s.(outbound := s.outbound + [Reply(id, Packet(s.forwarders[id].from, data))])
      else s.(forwarders := SetPhase(s, id, Failed))
    case Break(id) => s.(forwarders := SetPhase(s, id, Closing))
    case AskRemove(id) => s.(forwarders := SetPhase(s, id, Waiting), waiters := s.waiters + [Remover(id)])
    case GrantRemove(id) =>
      s.(portMap := s.portMap - {s.forwarders[id].from}, forwarders := SetPhase(s, id, Gone), waiters := s.waiters[1..])
  }

  ghost predicate Run(s: State, actions: seq<Action>, t: State)
    decreases |actions|
  {
    if actions == [] then s == t
    else Enabled(s, actions[0]) && Run(Next(s, actions[0]), actions[1..], t)
  }

  // ---------------------------------------------------------------- safety

  /** The port map and the forwarders agree: a live forwarder's source is mapped to it, and an entry belongs to a
      forwarder for that source that is live or has failed. */
  ghost predicate MapAgrees(s: State) {
    && (forall id :: id in s.forwarders && Live(s.forwarders[id]) ==>
          s.forwarders[id].from in s.portMap && s.portMap[s.forwarders[id].from] == id)
    && (forall a :: a in s.portMap ==>
          && s.portMap[a] in s.forwarders && s.forwarders[s.portMap[a]].from == a
          && !s.forwarders[s.portMap[a]].phase.Gone?)
    && (s.reader.WantWrite? ==> s.reader.packet.from !in s.portMap)
  }

  /** Every reply carries the source that created its forwarder. */
  ghost predicate RepliesAttributed(s: State) {
    forall r :: r in s.outbound ==> r.id in s.forwarders && r.packet.from == s.forwarders[r.id].from
  }

  /** Apart from granted write requests, a step leaves the map alone and ends no forwarder by removal. */
  lemma QuietStep(s: State, a: Action)
    requires Enabled(s, a) && !a.GrantWrite? && !a.GrantRemove?
    ensures var t := Next(s, a);
      && t.portMap == s.portMap && t.forwarders.Keys == s.forwarders.Keys
      && (forall i :: i in s.forwarders ==>
            && t.forwarders[i].from == s.forwarders[i].from
            && (|| t.forwarders[i].phase == s.forwarders[i].phase
                || (Live(s.forwarders[i]) && !t.forwarders[i].phase.Gone?)))
  {
  }

  lemma StepKeepsMap(s: State, a: Action)
    requires MapAgrees(s) && Enabled(s, a)
    ensures MapAgrees(Next(s, a))
  {
    if !a.GrantWrite? && !a.GrantRemove? {
      QuietStep(s, a);
    }
  }

  lemma StepKeepsReplies(s: State, a: Action)
    requires RepliesAttributed(s) && Enabled(s, a)
    ensures RepliesAttributed(Next(s, a))
  {
  }

  /** In every interleaving the port map agrees with the forwarders and replies carry their forwarder's source. */
  lemma {:induction false} ForwarderSafety(s: State, actions: seq<Action>, t: State)
    requires MapAgrees(s) && RepliesAttributed(s) && Run(s, actions, t)
    ensures MapAgrees(t) && RepliesAttributed(t)
    decreases |actions|
  {
    if actions == [] {
    } else {
      StepKeepsMap(s, actions[0]);
      StepKeepsReplies(s, actions[0]);
      ForwarderSafety(Next(s, actions[0]), actions[1..], t);
    }
  }

  /** At most one live forwarder per source, and one that removes an entry removes its own. */
  lemma OneForwarderPerSource(actions: seq<Action>, t: State, i: Id, j: Id)
    requires Run(START, actions, t) && i in t.forwarders && j in t.forwarders
    requires Live(t.forwarders[i])
    ensures Live(t.forwarders[j]) && t.forwarders[i].from == t.forwarders[j].from ==> i == j
    ensures Enabled(t, GrantRemove(i)) ==>
      && t.forwarders[i].from in t.portMap && t.portMap[t.forwarders[i].from] == i
      && forall a :: a in t.portMap && t.portMap[a] != i ==> a in Next(t, GrantRemove(i)).portMap
  {
    ForwarderSafety(START, actions, t);
  }

  // ---------------------------------------------------------------- what becomes of each datagram

  /** The replies of a run, in order: for each datagram a local service sent, that datagram under the source of its
      forwarder. */
  ghost function Replies(actions: seq<Action>, t: State): seq<Reply> {
    if actions == [] then []
    else
      var x := actions[0];
      (if x.Answer? && x.ok && x.id in t.forwarders then [Reply(x.id, Packet(t.forwarders[x.id].from, x.data))] else [])
      + Replies(actions[1..], t)
  }

  lemma {:induction false} SourcesKept(s: State, actions: seq<Action>, t: State, id: Id)
    requires Run(s, actions, t) && id in s.forwarders
    ensures id in t.forwarders && t.forwarders[id].from == s.forwarders[id].from
    decreases |actions|
  {
    if actions == [] {
    } else {
      SourcesKept(Next(s, actions[0]), actions[1..], t, id);
    }
  }

  /** Nothing else reaches the server, and nothing that a local service sent is lost, reordered or altered: the outbound
      queue grows by exactly the replies of the run. */
  lemma {:induction false} OutboundIsReplies(s: State, actions: seq<Action>, t: State)
    requires Run(s, actions, t)
    ensures t.outbound == s.outbound + Replies(actions, t)
    decreases |actions|
  {
    if actions == [] {
    } else {
      var x, u := actions[0], Next(s, actions[0]);
      OutboundIsReplies(u, actions[1..], t);
      if x.Answer? {
        SourcesKept(s, actions, t, x.id);
      }
    }
  }

  function Inbound(s: State, id: Id): seq<Bytes> {
    if id in s.forwarders then s.forwarders[id].inbound else []
  }

  /** What a step hands to forwarder `id`: the datagram in the reader's hands, if its source is mapped to `id` and that
      forwarder still exists. */
  function Handed(s: State, a: Action, id: Id): seq<Bytes> {
    if a.Send? && s.reader.Sending? && s.reader.packet.from in s.portMap && s.portMap[s.reader.packet.from] == id
       && id in s.forwarders && s.forwarders[id].phase !in {Gone, Failed}
    then [s.reader.packet.data] else []
  }

  /** What a step takes from the queue of forwarder `id`, to send it to the local service. */
  function TakenFrom(s: State, a: Action, id: Id): seq<Bytes> {
    if a.Take? && a.id == id && Inbound(s, id) != [] then [Inbound(s, id)[0]] else []
  }

  ghost function AllHanded(s: State, actions: seq<Action>, id: Id): seq<Bytes>
    decreases |actions|
  {
    if actions == [] || !Enabled(s, actions[0]) then []
    else Handed(s, actions[0], id) + AllHanded(Next(s, actions[0]), actions[1..], id)
  }

  ghost function AllTaken(s: State, actions: seq<Action>, id: Id): seq<Bytes>
    decreases |actions|
  {
    if actions == [] || !Enabled(s, actions[0]) then []
    else TakenFrom(s, actions[0], id) + AllTaken(Next(s, actions[0]), actions[1..], id)
  }

  lemma StepKeepsFifo(s: State, a: Action, id: Id)
    requires Enabled(s, a)
    ensures Inbound(s, id) + Handed(s, a, id) == TakenFrom(s, a, id) + Inbound(Next(s, a), id)
  {
    if a.Take? && a.id == id {
      assert Inbound(s, id) == [Inbound(s, id)[0]] + Inbound(s, id)[1..];
    }
  }

  /** First in, first out: over any run a forwarder takes exactly the datagrams handed to it, in order and unaltered. */
  lemma {:induction false} InboundIsFifo(s: State, actions: seq<Action>, t: State, id: Id)
    requires Run(s, actions, t)
    ensures Inbound(s, id) + AllHanded(s, actions, id) == AllTaken(s, actions, id) + Inbound(t, id)
    decreases |actions|
  {
    if actions == [] {
    } else {
      var a, u, rest := actions[0], Next(s, actions[0]), actions[1..];
      StepKeepsFifo(s, a, id);
      InboundIsFifo(u, rest, t, id);
      Rearrange(Inbound(s, id), Handed(s, a, id), AllHanded(u, rest, id), TakenFrom(s, a, id), Inbound(u, id),
                AllTaken(u, rest, id), Inbound(t, id));
    }
  }

  lemma Rearrange(before: seq<Bytes>, handed: seq<Bytes>, later: seq<Bytes>, taken: seq<Bytes>, between: seq<Bytes>,
                  takenLater: seq<Bytes>, after: seq<Bytes>)
    requires before + handed == taken + between && between + later == takenLater + after
    ensures before + (handed + later) == (taken + takenLater) + after
  {
    assert before + (handed + later) == (before + handed) + later;
    assert (taken + between) + later == taken + (between + later);
  }

  /** From the moment a datagram is received until it is handed over, the reader holds that datagram and no other. */
  lemma PacketKept(s: State, a: Action)
    requires Enabled(s, a)
    ensures var t := Next(s, a);
      && (a.Receive? ==> t.reader == WantFirst(a.packet))
      && (!a.Receive? && t.reader != s.reader && !t.reader.Idle? && !t.reader.Exited? ==>
            !s.reader.Idle? && !s.reader.Exited? && t.reader.packet == s.reader.packet)
      && (t.reader.Idle? && !s.reader.Idle? ==> a.Send?)
  {
  }

  /** A datagram from an unmapped source makes a forwarder for that source, mapped under it, if the local socket can be
      opened; otherwise nothing is mapped. */
  lemma NewSourceMapped(s: State, id: Id, connected: bool)
    requires Enabled(s, GrantWrite(id, connected))
    ensures var t, a := Next(s, GrantWrite(id, connected)), s.reader.packet.from;
      && (connected ==>
            t.portMap == s.portMap[a := id] && t.forwarders == s.forwarders[id := Forwarder(a, Running, [])])
      && (!connected ==> t.portMap == s.portMap && t.forwarders == s.forwarders)
  {
  }

  // ---------------------------------------------------------------- sources that failed

  /** The entry of source `a` was left behind by a forwarder that returned on a send error. */
  ghost predicate Stale(s: State, a: Addr) {
    a in s.portMap && InPhase(s, s.portMap[a], Failed)
  }

  /** A stale entry is never replaced: for the rest of the data channel no live forwarder serves its source, so every
      further datagram from it is dropped. */
  lemma {:induction false} StaleForever(s: State, actions: seq<Action>, t: State, a: Addr)
    requires MapAgrees(s) && RepliesAttributed(s) && Run(s, actions, t) && Stale(s, a)
    ensures Stale(t, a) && t.portMap[a] == s.portMap[a]
    ensures forall id :: id in t.forwarders && t.forwarders[id].from == a ==> !Live(t.forwarders[id])
    decreases |actions|
  {
    if actions == [] {
    } else {
      StepKeepsMap(s, actions[0]);
      StepKeepsReplies(s, actions[0]);
      StaleForever(Next(s, actions[0]), actions[1..], t, a);
    }
  }

  /** A forwarder ends because handing a datagram on failed. */
  predicate SendError(x: Action) {
    (x.Take? || x.Answer?) && !x.ok
  }

  /** The run has a send error of a forwarder for source `a`. */
  ghost predicate FailedFor(actions: seq<Action>, t: State, a: Addr) {
    exists x :: x in actions && SendError(x) && x.id in t.forwarders && t.forwarders[x.id].from == a
  }

  lemma StepMakesStale(s: State, x: Action, a: Addr)
    requires MapAgrees(s) && Enabled(s, x) && !Stale(s, a)
    ensures Stale(Next(s, x), a) <==> SendError(x) && s.forwarders[x.id].from == a
  {
  }

  /** A source that is not stale becomes stale in a run exactly when one of its forwarders meets a send error. */
  lemma {:induction false} StaleExactlyAfterSendError(s: State, actions: seq<Action>, t: State, a: Addr)
    requires MapAgrees(s) && RepliesAttributed(s) && Run(s, actions, t) && !Stale(s, a)
    ensures Stale(t, a) <==> FailedFor(actions, t, a)
    decreases |actions|
  {
    if actions == [] {
    } else {
      var x, rest := actions[0], actions[1..];
      var u := Next(s, x);
      assert actions == [x] + rest;
      StepKeepsMap(s, x);
      StepKeepsReplies(s, x);
      StepMakesStale(s, x, a);
      if SendError(x) {
        SourcesKept(s, actions, t, x.id);
      }
      if Stale(u, a) {
        StaleForever(u, rest, t, a);
        assert x in actions;
      } else {
        StaleExactlyAfterSendError(u, rest, t, a);
        assert FailedFor(actions, t, a) ==> FailedFor(rest, t, a);
      }
    }
  }

  /** In every reachable state a mapped source is served by a live forwarder exactly unless it is stale. */
  lemma ServedExactlyUnlessStale(actions: seq<Action>, t: State, a: Addr)
    requires Run(START, actions, t) && a in t.portMap
    ensures (exists id :: id in t.forwarders && Live(t.forwarders[id]) && t.forwarders[id].from == a) <==> !Stale(t, a)
  {
    ForwarderSafety(START, actions, t);
    if !Stale(t, a) {
      var id := t.portMap[a];
      assert id in t.forwarders && Live(t.forwarders[id]) && t.forwarders[id].from == a;
    }
  }

  // ---------------------------------------------------------------- the lock

  predicate ReaderAsks(s: State) {
    s.reader.WantFirst? || s.reader.WantWrite? || s.reader.WantSecond?
  }

  /** The queue holds one request for each task that waits for the lock. */
  ghost predicate QueueOk(s: State) {
    && (Reader in s.waiters <==> ReaderAsks(s))
    && (forall id :: Remover(id) in s.waiters <==> InPhase(s, id, Waiting))
    && Distinct(s.waiters)
  }

  ghost predicate GuardsOk(s: State) {
    match s.reader
    case Found(_) => s.guards == 1
    case WantSecond(_, holds) => s.guards == if holds then 1 else 0
    case Sending(_) => 1 <= s.guards <= 2
    case _ => s.guards == 0
  }

  ghost predicate LockOk(s: State) {
    QueueOk(s) && GuardsOk(s)
  }

  /** The queue without its head, then perhaps with `w` at the end. */
  lemma QueueMembers(ws: seq<Waiter>, w: Waiter)
    requires Distinct(ws)
    ensures forall v :: v in ws + [w] <==> v in ws || v == w
    ensures ws != [] ==> forall v :: v in ws[1..] <==> v in ws && v != ws[0]
    ensures ws != [] ==> forall v :: v in ws[1..] + [w] <==> (v in ws && v != ws[0]) || v == w
  {
    if ws != [] {
      assert ws == [ws[0]] + ws[1..];
    }
  }

  lemma RemoverStepKeepsQueue(s: State, a: Action)
    requires QueueOk(s) && Enabled(s, a) && (a.AskRemove? || a.GrantRemove?)
    ensures QueueOk(Next(s, a))
  {
    var t := Next(s, a);
    QueueMembers(s.waiters, Remover(a.id));
    assert forall i :: i != a.id ==> (InPhase(t, i, Waiting) <==> InPhase(s, i, Waiting));
  }

  lemma ReaderStepKeepsQueue(s: State, a: Action)
    requires QueueOk(s) && Enabled(s, a) && !a.AskRemove? && !a.GrantRemove?
    requires var t := Next(s, a); forall i :: InPhase(t, i, Waiting) <==> InPhase(s, i, Waiting)
    ensures QueueOk(Next(s, a))
  {
    QueueMembers(s.waiters, Reader);
  }

  lemma OtherStepKeepsWaiting(s: State, a: Action)
    requires Enabled(s, a) && !a.AskRemove? && !a.GrantRemove?
    ensures var t := Next(s, a); forall i :: InPhase(t, i, Waiting) <==> InPhase(s, i, Waiting)
  {
  }

  lemma StepKeepsQueue(s: State, a: Action)
    requires QueueOk(s) && Enabled(s, a)
    ensures QueueOk(Next(s, a))
  {
    if a.AskRemove? || a.GrantRemove? {
      RemoverStepKeepsQueue(s, a);
    } else {
      OtherStepKeepsWaiting(s, a);
      ReaderStepKeepsQueue(s, a);
    }
  }

  lemma StepKeepsLock(s: State, a: Action)
    requires LockOk(s) && Enabled(s, a)
    ensures LockOk(Next(s, a))
  {
    StepKeepsQueue(s, a);
  }

  /** The reader holds a read guard and waits behind a forwarder that waits for that guard. */
  ghost predicate GuardDeadlock(s: State) {
    s.reader.WantSecond? && s.guards > 0 && s.waiters != [] && s.waiters[0].Remover?
  }

  /** The reader holds a read guard and waits for room in the queue of a forwarder that no longer empties it. */
  ghost predicate QueueDeadlock(s: State) {
    SendBlocks(s) && !s.forwarders[s.portMap[s.reader.packet.from]].phase.Running?
  }

  /** What stands before and behind the reader in the lock's queue. */
  function Ahead(ws: seq<Waiter>): seq<Waiter> {
    if ws == [] || ws[0].Reader? then [] else [ws[0]] + Ahead(ws[1..])
  }

  function Behind(ws: seq<Waiter>): seq<Waiter> {
    if ws == [] then [] else if ws[0].Reader? then ws[1..] else Behind(ws[1..])
  }

  /** Source `a` has an entry, and it will still be there when the reader's request is granted. */
  predicate EntryStays(s: State, a: Addr) {
    a in s.portMap && Remover(s.portMap[a]) !in Ahead(s.waiters)
  }

  /** The forwarder of source `a` has a full queue and no longer empties it. */
  predicate Clogged(s: State, a: Addr) {
    && a in s.portMap && s.portMap[a] in s.forwarders
    && var f := s.forwarders[s.portMap[a]];
       Live(f) && !f.phase.Running? && |f.inbound| >= SENDQ
  }

  /** The reader will never finish with the datagram it is handling, as can be told from the lock's queue and the mapped
      forwarder: for a source whose entry stays, a remover behind the reader's first request, or one queued before its
      second, will be waited for with a guard in hand; or the forwarder is clogged. */
  predicate Doomed(s: State) {
    match s.reader
    case WantFirst(p) => EntryStays(s, p.from) && (Behind(s.waiters) != [] || Clogged(s, p.from))
    case Found(p) => s.waiters != [] || Clogged(s, p.from)
    case WantSecond(p, holds) =>
      (holds && Ahead(s.waiters) != []) || (EntryStays(s, p.from) && Clogged(s, p.from))
    case Sending(p) => Clogged(s, p.from)
    case _ => false
  }

  /** The reader is in the middle of handling a datagram. */
  predicate Handling(s: State) {
    !s.reader.Idle? && !s.reader.Exited?
  }

  /** Moves of the reader and the forwarders themselves, without new packets, answers, timeouts or a closed
      connection. */
  predicate Internal(a: Action) {
    !a.Receive? && !a.Exit? && !a.Answer? && !a.Break?
  }

  ghost predicate InternalRun(s: State, actions: seq<Action>, t: State) {
    Run(s, actions, t) && forall a :: a in actions ==> Internal(a)
  }

  ghost function Sum(ids: set<Id>): (n: nat)
    ensures forall id :: id in ids ==> id <= n
    decreases |ids|
  {
    if ids == {} then 0
    else
      var id: Id :| id in ids;
      assert ids == {id} + (ids - {id});
      id + Sum(ids - {id})
  }

  lemma RunBefore(s: State, a: Action, actions: seq<Action>, t: State)
    requires Enabled(s, a) && Internal(a) && InternalRun(Next(s, a), actions, t)
    ensures InternalRun(s, [a] + actions, t)
  {
    assert ([a] + actions)[1..] == actions;
  }

  /** How much waits in the queue of the forwarder for source `a`. */
  function Backlog(s: State, a: Addr): nat {
    if a in s.portMap && s.portMap[a] in s.forwarders then |s.forwarders[s.portMap[a]].inbound| else 0
  }

  /** A running forwarder makes room. */
  lemma {:induction false} FinishSending(s: State) returns (actions: seq<Action>, t: State)
    requires s.reader.Sending? && !Doomed(s)
    ensures InternalRun(s, actions, t) && t.reader.Idle?
    decreases Backlog(s, s.reader.packet.from)
  {
    var a;
    if SendBlocks(s) {
      a := Take(s.portMap[s.reader.packet.from], true);
      actions, t := FinishSending(Next(s, a));
    } else {
      a := Send;
      actions, t := [], Next(s, a);
    }
    RunBefore(s, a, actions, t);
    actions := [a] + actions;
  }

  /** A remover at the head of the queue leaves it, and the reader's prospects stay the same. */
  lemma HeadLeaves(s: State) returns (a: Action)
    requires LockOk(s) && MapAgrees(s) && ReaderAsks(s) && s.guards == 0 && s.waiters[0].Remover? && !Doomed(s)
    ensures Enabled(s, a) && Internal(a)
    ensures var t := Next(s, a);
      LockOk(t) && MapAgrees(t) && t.reader == s.reader && t.guards == 0 && t.waiters == s.waiters[1..] && !Doomed(t)
  {
    assert s.waiters[0] in s.waiters;
    a := GrantRemove(s.waiters[0].id);
    StepKeepsLock(s, a);
    StepKeepsMap(s, a);
    var t, p := Next(s, a), s.reader.packet;
    assert EntryStays(t, p.from) ==> EntryStays(s, p.from) && Clogged(s, p.from) == Clogged(t, p.from);
  }

  lemma {:induction false} FinishSecond(s: State) returns (actions: seq<Action>, t: State)
    requires LockOk(s) && MapAgrees(s) && s.reader.WantSecond? && !Doomed(s)
    ensures InternalRun(s, actions, t) && t.reader.Idle?
    decreases |s.waiters|
  {
    assert Reader in s.waiters;
    var a;
    if s.waiters[0].Reader? {
      a := GrantSecond;
      actions, t := FinishSending(Next(s, a));
    } else {
      a := HeadLeaves(s);
      actions, t := FinishSecond(Next(s, a));
    }
    RunBefore(s, a, actions, t);
    actions := [a] + actions;
  }

  lemma {:induction false} FinishWrite(s: State) returns (actions: seq<Action>, t: State)
    requires LockOk(s) && MapAgrees(s) && s.reader.WantWrite?
    ensures InternalRun(s, actions, t) && t.reader.Idle?
    decreases |s.waiters|
  {
    assert Reader in s.waiters;
    var a;
    if s.waiters[0].Reader? {
      a := GrantWrite(Sum(s.forwarders.Keys) + 1, true);
      StepKeepsLock(s, a);
      StepKeepsMap(s, a);
      actions, t := FinishSecond(Next(s, a));
    } else {
      a := HeadLeaves(s);
      actions, t := FinishWrite(Next(s, a));
    }
    RunBefore(s, a, actions, t);
    actions := [a] + actions;
  }

  lemma FinishFound(s: State) returns (actions: seq<Action>, t: State)
    requires LockOk(s) && MapAgrees(s) && s.reader.Found? && !Doomed(s)
    ensures InternalRun(s, actions, t) && t.reader.Idle?
  {
    StepKeepsLock(s, AskSecond);
    StepKeepsMap(s, AskSecond);
    actions, t := FinishSecond(Next(s, AskSecond));
    RunBefore(s, AskSecond, actions, t);
    actions := [AskSecond] + actions;
  }

  lemma {:induction false} FinishFirst(s: State) returns (actions: seq<Action>, t: State)
    requires LockOk(s) && MapAgrees(s) && s.reader.WantFirst? && !Doomed(s)
    ensures InternalRun(s, actions, t) && t.reader.Idle?
    decreases |s.waiters|
  {
    assert Reader in s.waiters;
    var a;
    if s.waiters[0].Reader? {
      a := GrantFirst;
      var u := Next(s, a);
      StepKeepsLock(s, a);
      StepKeepsMap(s, a);
      if u.reader.Found? {
        actions, t := FinishFound(u);
      } else {
        actions, t := FinishWrite(u);
      }
    } else {
      a := HeadLeaves(s);
      actions, t := FinishFirst(Next(s, a));
    }
    RunBefore(s, a, actions, t);
    actions := [a] + actions;
  }

  /** A reader that is not doomed can finish with its datagram. */
  lemma Finish(s: State) returns (actions: seq<Action>, t: State)
    requires LockOk(s) && MapAgrees(s) && Handling(s) && !Doomed(s)
    ensures InternalRun(s, actions, t) && t.reader.Idle?
  {
    match s.reader {
      case WantFirst(_) => actions, t := FinishFirst(s);
      case Found(_) => actions, t := FinishFound(s);
      case WantWrite(_) => actions, t := FinishWrite(s);
      case WantSecond(_, _) => actions, t := FinishSecond(s);
      case Sending(_) => actions, t := FinishSending(s);
    }
  }

  lemma {:induction false} QueueGrows(ws: seq<Waiter>, w: Waiter)
    ensures Reader in ws ==> Ahead(ws + [w]) == Ahead(ws) && Behind(ws + [w]) == Behind(ws) + [w]
    ensures Reader !in ws ==> Ahead(ws) == ws && Ahead(ws + [Reader]) == ws
  {
    if ws == [] {
    } else {
      QueueGrows(ws[1..], w);
      assert (ws + [w])[1..] == ws[1..] + [w] && (ws + [Reader])[1..] == ws[1..] + [Reader];
      assert ws == [ws[0]] + ws[1..];
    }
  }

  lemma RemoverKeepsDoomed(s: State, a: Action)
    requires LockOk(s) && MapAgrees(s) && Enabled(s, a) && Doomed(s) && (a.AskRemove? || a.GrantRemove?)
    ensures Doomed(Next(s, a))
  {
    QueueGrows(s.waiters, Remover(a.id));
  }

  lemma OthersKeepDoomed(s: State, a: Action)
    requires LockOk(s) && MapAgrees(s) && Enabled(s, a) && Doomed(s) && !a.AskRemove? && !a.GrantRemove?
    ensures Doomed(Next(s, a))
  {
    QueueGrows(s.waiters, Reader);
  }

  lemma StepKeepsDoomed(s: State, a: Action)
    requires LockOk(s) && MapAgrees(s) && Enabled(s, a) && Doomed(s)
    ensures Doomed(Next(s, a))
  {
    if a.AskRemove? || a.GrantRemove? {
      RemoverKeepsDoomed(s, a);
    } else {
      OthersKeepDoomed(s, a);
    }
  }

  /** Once doomed, always doomed, whatever else happens: the reader never gets back to its loop. */
  lemma {:induction false} DoomedForever(s: State, actions: seq<Action>, t: State)
    requires LockOk(s) && MapAgrees(s) && Run(s, actions, t) && Doomed(s)
    ensures Doomed(t) && Handling(t)
    decreases |actions|
  {
    if actions == [] {
    } else {
      StepKeepsMap(s, actions[0]);
      StepKeepsLock(s, actions[0]);
      StepKeepsDoomed(s, actions[0]);
      DoomedForever(Next(s, actions[0]), actions[1..], t);
    }
  }

  /** Once deadlocked, always deadlocked: the data channel never handles another datagram. */
  lemma {:induction false} DeadlockForever(s: State, actions: seq<Action>, t: State)
    requires LockOk(s) && MapAgrees(s) && Run(s, actions, t)
    ensures GuardDeadlock(s) ==> GuardDeadlock(t) && t.reader == s.reader
    ensures QueueDeadlock(s) ==> QueueDeadlock(t) && t.reader == s.reader
    decreases |actions|
  {
    if actions == [] {
    } else {
      StepKeepsMap(s, actions[0]);
      StepKeepsLock(s, actions[0]);
      StepKeepsDeadlock(s, actions[0]);
      DeadlockForever(Next(s, actions[0]), actions[1..], t);
    }
  }

  lemma StepKeepsDeadlock(s: State, a: Action)
    requires LockOk(s) && MapAgrees(s) && Enabled(s, a)
    ensures GuardDeadlock(s) ==> GuardDeadlock(Next(s, a)) && Next(s, a).reader == s.reader
    ensures QueueDeadlock(s) ==> QueueDeadlock(Next(s, a)) && Next(s, a).reader == s.reader
  {
  }

  lemma {:induction false} LockSafety(s: State, actions: seq<Action>, t: State)
    requires LockOk(s) && Run(s, actions, t)
    ensures LockOk(t)
    decreases |actions|
  {
    if actions == [] {
    } else {
      StepKeepsLock(s, actions[0]);
      LockSafety(Next(s, actions[0]), actions[1..], t);
    }
  }

  /** In every reachable state in which the reader handles a datagram, moves of the reader and the forwarders alone can
      bring it back to its loop exactly unless it is doomed; and if it is, nothing at all can. */
  lemma ReaderFinishesExactlyUnlessDoomed(actions: seq<Action>, s: State)
    requires Run(START, actions, s) && Handling(s)
    ensures (exists more, t :: InternalRun(s, more, t) && t.reader.Idle?) <==> !Doomed(s)
    ensures Doomed(s) ==> forall more, t :: Run(s, more, t) ==> !t.reader.Idle?
  {
    LockSafety(START, actions, s);
    ForwarderSafety(START, actions, s);
    if Doomed(s) {
      forall more, t | Run(s, more, t) ensures !t.reader.Idle? {
        DoomedForever(s, more, t);
      }
    } else {
      var more, t := Finish(s);
    }
  }

  /** Both deadlocks are doomed states. */
  lemma DeadlocksAreDoomed(s: State)
    requires LockOk(s) && (GuardDeadlock(s) || QueueDeadlock(s))
    ensures Doomed(s)
  {
  }

  lemma RunStep(s: State, actions: seq<Action>, t: State, a: Action)
    requires Run(s, actions, t) && Enabled(t, a)
    ensures Run(s, actions + [a], Next(t, a))
    decreases |actions|
  {
    if actions == [] {
      assert Run(Next(s, a), [a][1..], Next(t, a));
    } else {
      RunStep(Next(s, actions[0]), actions[1..], t, a);
      assert (actions + [a])[1..] == actions[1..] + [a];
    }
  }

  // ---------------------------------------------------------------- concrete runs

  /** One forwarder, numbered 0, serves source `a` and has not yet taken `inbound`; the reader is in its loop. */
  function OneForwarder(a: Addr, inbound: seq<Bytes>): State {
    State(map[a := 0], map[0 := Forwarder(a, Running, inbound)], Idle, 0, [], [])
  }

  lemma StepTo(s: State, actions: seq<Action>, t: State, a: Action, u: State) returns (more: seq<Action>)
    requires Run(s, actions, t) && Enabled(t, a) && Next(t, a) == u
    ensures Run(s, more, u)
  {
    RunStep(s, actions, t, a);
    more := actions + [a];
  }

  /** With nobody waiting, a request is the whole queue, and once granted the queue is empty. */
  lemma AloneInQueue(ws: seq<Waiter>)
    requires ws == []
    ensures ws + [Reader] == [Reader] && (ws + [Reader])[1..] == [] && (ws + [Reader])[1..] + [Reader] == [Reader]
  {
  }

  /** The reader hands over the datagram. */
  lemma HandOver(a: Addr, inbound: seq<Bytes>, p: Packet, guards: nat)
    requires p.from == a && |inbound| < SENDQ
    ensures var s := OneForwarder(a, inbound).(reader := Sending(p), guards := guards);
      Enabled(s, Send) && Next(s, Send) == OneForwarder(a, inbound + [p.data])
  {
    var s := OneForwarder(a, inbound).(reader := Sending(p), guards := guards);
    assert s.portMap[a] == 0 && s.forwarders[0] == Forwarder(a, Running, inbound);
    assert Next(s, Send).forwarders == map[0 := Forwarder(a, Running, inbound + [p.data])];
  }

  /** One datagram creates a forwarder for its source. */
  lemma FirstDatagram(p: Packet) returns (actions: seq<Action>)
    ensures Run(START, actions, OneForwarder(p.from, [p.data]))
  {
    AloneInQueue([]);
    var s1 := START.(reader := WantFirst(p), waiters := [Reader]);
    var s2 := START.(reader := WantWrite(p), waiters := [Reader]);
    var t := OneForwarder(p.from, []);
    var s3 := t.(reader := WantSecond(p, false), waiters := [Reader]);
    var s4 := t.(reader := Sending(p), guards := 1);
    actions := StepTo(START, [], START, Receive(p), s1);
    actions := StepTo(START, actions, s1, GrantFirst, s2);
    actions := StepTo(START, actions, s2, GrantWrite(0, true), s3);
    actions := StepTo(START, actions, s3, GrantSecond, s4);
    var none: seq<Bytes> := [];
    HandOver(p.from, none, p, 1);
    assert none + [p.data] == [p.data];
    actions := StepTo(START, actions, s4, Send, OneForwarder(p.from, [p.data]));
  }

  /** A datagram from a mapped source brings the reader, undisturbed, to its first read guard. */
  lemma UntilFound(from: State, actions: seq<Action>, s: State, p: Packet) returns (more: seq<Action>)
    requires Run(from, actions, s) && s.reader.Idle? && s.guards == 0 && s.waiters == [] && p.from in s.portMap
    ensures Run(from, more, s.(reader := Found(p), guards := 1))
  {
    AloneInQueue(s.waiters);
    var s1 := s.(reader := WantFirst(p), waiters := [Reader]);
    more := StepTo(from, actions, s, Receive(p), s1);
    more := StepTo(from, more, s1, GrantFirst, s.(reader := Found(p), guards := 1));
  }

  /** From there it comes, undisturbed, to the point of handing the datagram over. */
  lemma UntilSending(from: State, actions: seq<Action>, s: State, p: Packet) returns (more: seq<Action>)
    requires Run(from, actions, s) && s.reader.Idle? && s.guards == 0 && s.waiters == [] && p.from in s.portMap
    ensures Run(from, more, s.(reader := Sending(p), guards := 2))
  {
    AloneInQueue(s.waiters);
    var s2 := s.(reader := Found(p), guards := 1);
    var s3 := s.(reader := WantSecond(p, true), guards := 1, waiters := [Reader]);
    more := UntilFound(from, actions, s, p);
    more := StepTo(from, more, s2, AskSecond, s3);
    more := StepTo(from, more, s3, GrantSecond, s.(reader := Sending(p), guards := 2));
  }

  /** Any number of datagrams up to the capacity can wait in a forwarder's queue. */
  lemma {:induction false} FillInbound(a: Addr, n: nat) returns (actions: seq<Action>, inbound: seq<Bytes>)
    requires 1 <= n <= SENDQ
    ensures Run(START, actions, OneForwarder(a, inbound)) && |inbound| == n
    decreases n
  {
    var p := Packet(a, []);
    if n == 1 {
      actions := FirstDatagram(p);
      inbound := [p.data];
    } else {
      actions, inbound := FillInbound(a, n - 1);
      var s := OneForwarder(a, inbound);
      actions := UntilSending(START, actions, s, p);
      var t := s.(reader := Sending(p), guards := 2);
      HandOver(a, inbound, p, 2);
      inbound := inbound + [p.data];
      actions := StepTo(START, actions, t, Send, OneForwarder(a, inbound));
    }
  }

  /** "Every source keeps being served" fails: a send error of its forwarder leaves a stale entry. */
  lemma StaleReachable() returns (actions: seq<Action>, t: State)
    ensures Run(START, actions, t) && Stale(t, 1)
  {
    actions := FirstDatagram(Packet(1, []));
    var s := OneForwarder(1, [[]]);
    t := Next(s, Take(0, false));
    actions := StepTo(START, actions, s, Take(0, false), t);
  }

  /** "The reader always gets back to its loop" fails: a forwarder that asks to remove its entry while the reader holds
      its first guard dooms the reader before it has asked for the second. */
  lemma DoomReachable() returns (actions: seq<Action>, t: State)
    ensures Run(START, actions, t) && Doomed(t) && t.reader.Found? && t.guards == 1 && t.waiters == [Remover(0)]
  {
    var p := Packet(1, []);
    actions := FirstDatagram(p);
    var s0 := OneForwarder(1, [[]]);
    actions := UntilFound(START, actions, s0, p);
    var s1 := s0.(reader := Found(p), guards := 1);
    var s2 := Next(s1, Break(0));
    actions := StepTo(START, actions, s1, Break(0), s2);
    t := Next(s2, AskRemove(0));
    actions := StepTo(START, actions, s2, AskRemove(0), t);
  }

  /** The doomed reader then asks for its second guard and the two wait for each other. */
  lemma DeadlockReachable() returns (actions: seq<Action>, t: State)
    ensures Run(START, actions, t) && GuardDeadlock(t)
  {
    var s;
    actions, s := DoomReachable();
    t := Next(s, AskSecond);
    actions := StepTo(START, actions, s, AskSecond, t);
  }

  /** The other deadlock: a forwarder leaves its loop with a full queue and the reader has one more datagram for it. */
  lemma QueueDeadlockReachable() returns (actions: seq<Action>, t: State)
    ensures Run(START, actions, t) && QueueDeadlock(t)
    ensures |t.forwarders[t.portMap[t.reader.packet.from]].inbound| == 1024
  {
    var p := Packet(1, []);
    var inbound;
    actions, inbound := FillInbound(1, SENDQ);
    var s := OneForwarder(1, inbound);
    var u := Next(s, Break(0));
    actions := StepTo(START, actions, s, Break(0), u);
    actions := UntilSending(START, actions, u, p);
    t := u.(reader := Sending(p), guards := 2);
  }
}
