/** The control-channel handshake as two processes exchanging bytes over a connection, under every scheduling. */
module HandshakeProtocol {
  import opened Basics
  import opened Configs
  import opened Protocol

  /** One connection attempt: the client's service name and token, the server's tokens by service digest, and the nonce
      the server draws. */
  datatype Setup = Setup(sha: Sha, name: Bytes, clientToken: Bytes, tokens: map<Digest, Bytes>, nonce: Bytes)

  ghost predicate ValidSetup(p: Setup) {
    |p.nonce| == HASH_WIDTH && forall x :: |p.sha(x)| == HASH_WIDTH
  }

  datatype ClientPhase =
    | ClientStart
    | AwaitNonce
    | AwaitAck(key: Digest)
    | ClientEstablished(key: Digest)
    | ClientRejected(ack: Ack)
    | ClientFailed

  datatype ServerPhase =
    | AwaitHello
    | AwaitAuth(key: Digest)
    | ServerEstablished(key: Digest)
    | ServerRejected(ack: Ack)
    | ServerFailed

  datatype State = State(client: ClientPhase, server: ServerPhase, toServer: Bytes, toClient: Bytes)

  datatype Side = ClientSide | ServerSide

  const START: State := State(ClientStart, AwaitHello, [], [])

  /** A side can move when it is not waiting for bytes: `read_exact` blocks until a whole message has arrived. */
  predicate CanStep(s: State, side: Side) {
    match side
    case ClientSide =>
      || s.client.ClientStart?
      || (s.client.AwaitNonce? && |s.toClient| >= PacketLength(THello))
      || (s.client.AwaitAck? && |s.toClient| >= PacketLength(TAck))
    case ServerSide =>
      || (s.server.AwaitHello? && |s.toServer| >= PacketLength(THello))
      || (s.server.AwaitAuth? && |s.toServer| >= PacketLength(TAuth))
  }

  function Step(p: Setup, s: State, side: Side): State
    requires CanStep(s, side)
  {
    match side
    case ClientSide =>
      (match s.client
       case ClientStart =>
         var hello := MHello(ControlChannelHello, CURRENT_PROTO_VERSION, p.sha(p.name));
         s.(client := AwaitNonce, toServer := s.toServer + Encode(hello))
       case AwaitNonce =>
         var read := ReadMessage(THello, s.toClient);
         var t := s.(toClient := read.rest);
         if read.result.Ok? && read.result.value.MHello? && read.result.value.kind.ControlChannelHello? then
           var key := p.sha(p.clientToken + read.result.value.digest);
           t.(client := AwaitAck(key), toServer := s.toServer + Encode(MAuth(key)))
         else t.(client := ClientFailed)
       case AwaitAck(key) =>
         var read := ReadMessage(TAck, s.toClient);
         var t := s.(toClient := read.rest);
         if !(read.result.Ok? && read.result.value.MAck?) then t.(client := ClientFailed)
         else if read.result.value.ack.AckOk? then t.(client := ClientEstablished(key))
         else t.(client := ClientRejected(read.result.value.ack)))
    case ServerSide =>
      (match s.server
       case AwaitHello =>
         var read := ReadMessage(THello, s.toServer);
         var t := s.(toServer := read.rest);
         if read.result.Ok? && read.result.value.MHello? && read.result.value.kind.ControlChannelHello? then
           var digest := read.result.value.digest;
           var greeting := Encode(MHello(ControlChannelHello, CURRENT_PROTO_VERSION, p.nonce));
           if digest in p.tokens
           then t.(server := AwaitAuth(p.sha(p.tokens[digest] + p.nonce)), toClient := s.toClient + greeting)
           else t.(server := ServerRejected(ServiceNotExist),
                   toClient := s.toClient + greeting + Encode(MAck(ServiceNotExist)))
         else t.(server := ServerFailed)
       case AwaitAuth(key) =>
         var read := ReadMessage(TAuth, s.toServer);
         var t := s.(toServer := read.rest);
         if !(read.result.Ok? && read.result.value.MAuth?) then t.(server := ServerFailed)
         else if read.result.value.digest != key
         then t.(server := ServerRejected(AuthFailed), toClient := s.toClient + Encode(MAck(AuthFailed)))
         else t.(server := ServerEstablished(key), toClient := s.toClient + Encode(MAck(AckOk))))
  }

  ghost predicate Run(p: Setup, s: State, schedule: seq<Side>, t: State)
    decreases |schedule|
  {
    if schedule == [] then s == t
    else CanStep(s, schedule[0]) && Run(p, Step(p, s, schedule[0]), schedule[1..], t)
  }

  // ---------------------------------------------------------------- the invariant

  function ClientHello(p: Setup): Message {
    MHello(ControlChannelHello, CURRENT_PROTO_VERSION, p.sha(p.name))
  }

  function Greeting(p: Setup): Message {
    MHello(ControlChannelHello, CURRENT_PROTO_VERSION, p.nonce)
  }

  predicate Known(p: Setup) { p.sha(p.name) in p.tokens }

  function ClientKey(p: Setup): Digest { p.sha(p.clientToken + p.nonce) }

  function ServerKey(p: Setup): Digest
    requires Known(p)
  {
    p.sha(p.tokens[p.sha(p.name)] + p.nonce)
  }

  /** The server's verdict on the client it is talking to. */
  function Verdict(p: Setup): Ack {
    if !Known(p) then ServiceNotExist else if ClientKey(p) == ServerKey(p) then AckOk else AuthFailed
  }

  function ServerEnd(p: Setup): ServerPhase {
    if Verdict(p).AckOk? then ServerEstablished(ClientKey(p)) else ServerRejected(Verdict(p))
  }

  function ClientEnd(p: Setup): ClientPhase {
    if Verdict(p).AckOk? then ClientEstablished(ClientKey(p)) else ClientRejected(Verdict(p))
  }

  /** Every phase the pair can be in, with the bytes in flight. */
  ghost predicate Inv(p: Setup, s: State) {
    match s.client
    case ClientStart => s == START
    case AwaitNonce =>
      || s == State(AwaitNonce, AwaitHello, Encode(ClientHello(p)), [])
      || (Known(p) && s == State(AwaitNonce, AwaitAuth(ServerKey(p)), [], Encode(Greeting(p))))
      || (!Known(p) && s == State(AwaitNonce, ServerEnd(p), [], Encode(Greeting(p)) + Encode(MAck(ServiceNotExist))))
    case AwaitAck(key) =>
      && key == ClientKey(p)
      && (|| (Known(p) && s == State(AwaitAck(key), AwaitAuth(ServerKey(p)), Encode(MAuth(key)), []))
          || (!Known(p) && s == State(AwaitAck(key), ServerEnd(p), Encode(MAuth(key)), Encode(MAck(ServiceNotExist))))
          || (Known(p) && s == State(AwaitAck(key), ServerEnd(p), [], Encode(MAck(Verdict(p))))))
    case _ => s.client == ClientEnd(p) && s.server == ServerEnd(p) && s.toClient == []
  }

  lemma ReadWhole(m: Message)
    requires WellFormed(m) && (m.MHello? ==> m.version == CURRENT_PROTO_VERSION)
    ensures ReadMessage(TypeOf(m), Encode(m)) == Read(Ok(m), [])
    ensures |Encode(m)| == PacketLength(TypeOf(m))
  {
    MessageRoundTrip(m, []);
    LengthFitsEveryVariant(m);
    assert Encode(m) + [] == Encode(m);
  }

  function Remaining(s: State): nat {
    (match s.client case ClientStart => 3 case AwaitNonce => 2 case AwaitAck(_) => 1 case _ => 0)
    + (match s.server case AwaitHello => 2 case AwaitAuth(_) => 1 case _ => 0)
  }

  lemma ClientStepKeepsInv(p: Setup, s: State)
    requires ValidSetup(p) && Inv(p, s) && CanStep(s, ClientSide)
    ensures Inv(p, Step(p, s, ClientSide)) && Remaining(Step(p, s, ClientSide)) < Remaining(s)
  {
    match s.client {
      case ClientStart =>
      case AwaitNonce =>
        ReadWhole(Greeting(p));
        MessageRoundTrip(Greeting(p), Encode(MAck(ServiceNotExist)));
      case AwaitAck(_) =>
        if Known(p) {
          ReadWhole(MAck(Verdict(p)));
        } else {
          ReadWhole(MAck(ServiceNotExist));
        }
    }
  }

  lemma ServerStepKeepsInv(p: Setup, s: State)
    requires ValidSetup(p) && Inv(p, s) && CanStep(s, ServerSide)
    ensures Inv(p, Step(p, s, ServerSide)) && Remaining(Step(p, s, ServerSide)) < Remaining(s)
  {
    match s.server {
      case AwaitHello =>
        ReadWhole(ClientHello(p));
        assert [] + Encode(Greeting(p)) == Encode(Greeting(p));
      case AwaitAuth(_) =>
        ReadWhole(MAuth(ClientKey(p)));
        assert [] + Encode(MAck(Verdict(p))) == Encode(MAck(Verdict(p)));
    }
  }

  lemma StepKeepsInv(p: Setup, s: State, side: Side)
    requires ValidSetup(p) && Inv(p, s) && CanStep(s, side)
    ensures Inv(p, Step(p, s, side)) && Remaining(Step(p, s, side)) < Remaining(s)
  {
    match side {
      case ClientSide => ClientStepKeepsInv(p, s);
      case ServerSide => ServerStepKeepsInv(p, s);
    }
  }

  lemma {:induction false} RunKeepsInv(p: Setup, s: State, schedule: seq<Side>, t: State)
    requires ValidSetup(p) && Inv(p, s) && Run(p, s, schedule, t)
    ensures Inv(p, t) && |schedule| + Remaining(t) <= Remaining(s)
    decreases |schedule|
  {
    if schedule == [] {
    } else {
      StepKeepsInv(p, s, schedule[0]);
      RunKeepsInv(p, Step(p, s, schedule[0]), schedule[1..], t);
    }
  }

  lemma StuckMeansDone(p: Setup, s: State)
    requires ValidSetup(p) && Inv(p, s) && !CanStep(s, ClientSide) && !CanStep(s, ServerSide)
    ensures s.client == ClientEnd(p) && s.server == ServerEnd(p)
  {
    ReadWhole(ClientHello(p));
    ReadWhole(Greeting(p));
    ReadWhole(MAuth(ClientKey(p)));
    ReadWhole(MAck(Verdict(p)));
    ReadWhole(MAck(ServiceNotExist));
  }

  /** Handshake agreement.  Whatever the scheduling, a run has at most five steps; one that cannot go on has both sides
      established, with the same session key, exactly when the service exists and the tokens are equal; otherwise the
      client has read the acknowledgement naming the reason.  No collision between the two hashed strings is assumed. */
  lemma HandshakeAgreement(p: Setup, schedule: seq<Side>, t: State)
    requires ValidSetup(p) && Run(p, START, schedule, t)
    requires Known(p) ==> CollisionFree(p.sha, {p.clientToken + p.nonce, p.tokens[p.sha(p.name)] + p.nonce})
    ensures |schedule| <= 5
    ensures t.client.ClientEstablished? ==> t.server == ServerEstablished(t.client.key)
    ensures !CanStep(t, ClientSide) && !CanStep(t, ServerSide) ==>
      var accepted := Known(p) && p.tokens[p.sha(p.name)] == p.clientToken;
      && (accepted ==>
            var key := p.sha(p.clientToken + p.nonce);
            t.client == ClientEstablished(key) && t.server == ServerEstablished(key))
      && (!accepted ==>
            && t.client == ClientRejected(if Known(p) then AuthFailed else ServiceNotExist)
            && !t.server.ServerEstablished?)
  {
    RunKeepsInv(p, START, schedule, t);
    if Known(p) {
      var a, b, n := p.clientToken, p.tokens[p.sha(p.name)], p.nonce;
      if a + n == b + n {
        assert a == (a + n)[..|a + n| - |n|] && b == (b + n)[..|b + n| - |n|];
      }
    }
    if !CanStep(t, ClientSide) && !CanStep(t, ServerSide) {
      StuckMeansDone(p, t);
    }
  }
}
