/** Wire formats: the handshake messages and UDP-over-stream framing.

    Serialisation is bincode's default: fixed-width little-endian integers, enum tags as 32-bit integers, arrays and
    tuples without a length; deserialisation ignores trailing bytes. */
module Protocol {
  import opened Basics
  import opened Configs

  const CURRENT_PROTO_VERSION: byte := 1

  // ---------------------------------------------------------------- integers

  function EncodeU16(x: int): (b: Bytes)
    requires 0 <= x < 0x1_0000
    ensures |b| == 2
  {
    [x % 256, x / 256]
  }

  function DecodeU16(b: Bytes): (x: nat)
    requires |b| == 2
    ensures x < 0x1_0000
  {
    b[0] as int + 256 * b[1] as int
  }

  function EncodeU32(x: int): (b: Bytes)
    requires 0 <= x < 0x1_0000_0000
    ensures |b| == 4
  {
    EncodeU16(x % 0x1_0000) + EncodeU16(x / 0x1_0000)
  }

  function DecodeU32(b: Bytes): (x: nat)
    requires |b| == 4
    ensures x < 0x1_0000_0000
  {
    DecodeU16(b[..2]) + 0x1_0000 * DecodeU16(b[2..])
  }

  lemma U32RoundTrip(x: int)
    requires 0 <= x < 0x1_0000_0000
    ensures DecodeU32(EncodeU32(x)) == x
  {
    var lo, hi := EncodeU16(x % 0x1_0000), EncodeU16(x / 0x1_0000);
    assert (lo + hi)[..2] == lo && (lo + hi)[2..] == hi;
  }

  // ---------------------------------------------------------------- handshake messages

  datatype HelloKind = ControlChannelHello | DataChannelHello | VisitorHello

  datatype Ack = AckOk | ServiceNotExist | AuthFailed | SecretKeyMismatch | ServiceNotReady

  datatype ControlCmd = CreateDataChannel | HeartBeat

  datatype DataCmd = StartForwardTcp | StartForwardUdp | StartForwardHttp | StartForwardStcp

  datatype Message =
    | MHello(kind: HelloKind, version: byte, digest: Bytes)
    | MAuth(digest: Bytes)
    | MAck(ack: Ack)
    | MControl(control: ControlCmd)
    | MData(data: DataCmd)

  predicate WellFormed(m: Message) {
    match m
    case MHello(_, _, d) => |d| == HASH_WIDTH
    case MAuth(d) => |d| == HASH_WIDTH
    case _ => true
  }

  /** Which of the five `read_*` functions is called. */
  datatype MessageType = THello | TAuth | TAck | TControl | TData

  function TypeOf(m: Message): MessageType {
    match m
    case MHello(_, _, _) => THello
    case MAuth(_) => TAuth
    case MAck(_) => TAck
    case MControl(_) => TControl
    case MData(_) => TData
  }

  function HelloTag(k: HelloKind): nat {
    match k case ControlChannelHello => 0 case DataChannelHello => 1 case VisitorHello => 2
  }

  function AckTag(a: Ack): nat {
    match a
    case AckOk => 0 case ServiceNotExist => 1 case AuthFailed => 2 case SecretKeyMismatch => 3 case ServiceNotReady => 4
  }

  function ControlTag(c: ControlCmd): nat {
    match c case CreateDataChannel => 0 case HeartBeat => 1
  }

  function DataTag(c: DataCmd): nat {
    match c case StartForwardTcp => 0 case StartForwardUdp => 1 case StartForwardHttp => 2 case StartForwardStcp => 3
  }

  function Encode(m: Message): Bytes {
    match m
    case MHello(k, v, d) => EncodeU32(HelloTag(k)) + [v] + d
    case MAuth(d) => d
    case MAck(a) => EncodeU32(AckTag(a))
    case MControl(c) => EncodeU32(ControlTag(c))
    case MData(c) => EncodeU32(DataTag(c))
  }

  /** `PacketLength::new`: one length per message type, measured on one sample of each. */
  function PacketLength(t: MessageType): nat {
    var d: Bytes := seq(HASH_WIDTH, _ => 0);
    match t
    case THello => |Encode(MHello(ControlChannelHello, CURRENT_PROTO_VERSION, d))|
    case TAuth => |Encode(MAuth(d))|
    case TAck => |Encode(MAck(AckOk))|
    case TControl => |Encode(MControl(CreateDataChannel))|
    case TData => |Encode(MData(StartForwardTcp))|
  }

  /** Least significant byte first. */
  lemma LittleEndian(x: int)
    requires 0 <= x < 0x1_0000_0000
    ensures x < 0x1_0000 ==> var b := EncodeU16(x); b[0] as int + 0x100 * b[1] as int == x
    ensures var b := EncodeU32(x);
      b[0] as int + 0x100 * b[1] as int + 0x1_0000 * b[2] as int + 0x100_0000 * b[3] as int == x
  {
  }

  lemma SmallTag(n: byte)
    ensures EncodeU32(n) == [n, 0, 0, 0]
  {
    assert EncodeU32(n)[0] == n;
  }

  /** The wire format, byte by byte: hello and auth, */
  lemma HelloFormat(v: byte, d: Bytes)
    ensures Encode(MHello(ControlChannelHello, v, d)) == [0, 0, 0, 0, v] + d
    ensures Encode(MHello(DataChannelHello, v, d)) == [1, 0, 0, 0, v] + d
    ensures Encode(MHello(VisitorHello, v, d)) == [2, 0, 0, 0, v] + d
    ensures Encode(MAuth(d)) == d
  {
    SmallTag(0);
    SmallTag(1);
    SmallTag(2);
  }

  /** acknowledgements, */
  lemma AckFormat()
    ensures Encode(MAck(AckOk)) == [0, 0, 0, 0] && Encode(MAck(ServiceNotExist)) == [1, 0, 0, 0]
    ensures Encode(MAck(AuthFailed)) == [2, 0, 0, 0] && Encode(MAck(SecretKeyMismatch)) == [3, 0, 0, 0]
    ensures Encode(MAck(ServiceNotReady)) == [4, 0, 0, 0]
  {
    SmallTag(0);
    SmallTag(1);
    SmallTag(2);
    SmallTag(3);
    SmallTag(4);
  }

  /** and commands. */
  lemma CommandFormat()
    ensures Encode(MControl(CreateDataChannel)) == [0, 0, 0, 0] && Encode(MControl(HeartBeat)) == [1, 0, 0, 0]
    ensures Encode(MData(StartForwardTcp)) == [0, 0, 0, 0] && Encode(MData(StartForwardUdp)) == [1, 0, 0, 0]
    ensures Encode(MData(StartForwardHttp)) == [2, 0, 0, 0] && Encode(MData(StartForwardStcp)) == [3, 0, 0, 0]
  {
    SmallTag(0);
    SmallTag(1);
    SmallTag(2);
    SmallTag(3);
  }

  /** What the five read functions ask the stream for. */
  lemma PacketLengths()
    ensures PacketLength(THello) == 37 && PacketLength(TAuth) == 32 && PacketLength(TAck) == 4
    ensures PacketLength(TControl) == 4 && PacketLength(TData) == 4
  {
  }

  datatype ReadError = UnexpectedEof | BadEncoding | VersionMismatch(got: byte)

  function Decode(t: MessageType, b: Bytes): Result<Message, ReadError>
    requires |b| == PacketLength(t)
  {
    match t
    case THello =>
      var tag := DecodeU32(b[..4]);
      if tag > 2 then Err(BadEncoding)
      else
        var kind := if tag == 0 then ControlChannelHello else if tag == 1 then DataChannelHello else VisitorHello;
        if b[4] != CURRENT_PROTO_VERSION then Err(VersionMismatch(b[4])) else Ok(MHello(kind, b[4], b[5..]))
    case TAuth => Ok(MAuth(b))
    case TAck =>
      var tag := DecodeU32(b);
      if tag > 4 then Err(BadEncoding)
      else Ok(MAck(if tag == 0 then AckOk else if tag == 1 then ServiceNotExist else if tag == 2 then AuthFailed
                   else if tag == 3 then SecretKeyMismatch else ServiceNotReady))
    case TControl =>
      var tag := DecodeU32(b);
      if tag > 1 then Err(BadEncoding) else Ok(MControl(if tag == 0 then CreateDataChannel else HeartBeat))
    case TData =>
      var tag := DecodeU32(b);
      if tag > 3 then Err(BadEncoding)
      else Ok(MData(if tag == 0 then StartForwardTcp else if tag == 1 then StartForwardUdp
                    else if tag == 2 then StartForwardHttp else StartForwardStcp))
  }

  datatype Read<T> = Read(result: Result<T, ReadError>, rest: Bytes)

  /** A `read_*` call: take exactly the fixed number of bytes of that type, then deserialise. */
  function ReadMessage(t: MessageType, stream: Bytes): Read<Message> {
    var n := PacketLength(t);
    if |stream| < n then Read(Err(UnexpectedEof), []) else Read(Decode(t, stream[..n]), stream[n..])
  }

  /** The single length computed per message type is the encoded length of every message of that type. */
  lemma LengthFitsEveryVariant(m: Message)
    requires WellFormed(m)
    ensures |Encode(m)| == PacketLength(TypeOf(m))
  {
  }

  /** Reading a written message returns it and leaves the rest of the stream, exactly when it does not carry a foreign
      protocol version. */
  lemma MessageRoundTrip(m: Message, rest: Bytes)
    requires WellFormed(m)
    ensures ReadMessage(TypeOf(m), Encode(m) + rest)
         == if m.MHello? && m.version != CURRENT_PROTO_VERSION then Read(Err(VersionMismatch(m.version)), rest)
            else Read(Ok(m), rest)
  {
    LengthFitsEveryVariant(m);
    var b := Encode(m);
    assert (b + rest)[..|b|] == b && (b + rest)[|b|..] == rest;
    match m {
      case MHello(k, v, d) =>
        U32RoundTrip(HelloTag(k));
        assert b[..4] == EncodeU32(HelloTag(k)) && b[4] == v && b[5..] == d;
      case MAuth(_) =>
      case MAck(a) => U32RoundTrip(AckTag(a));
      case MControl(c) => U32RoundTrip(ControlTag(c));
      case MData(c) => U32RoundTrip(DataTag(c));
    }
  }

  lemma U32Inverse(b: Bytes)
    requires |b| == 4
    ensures EncodeU32(DecodeU32(b)) == b
  {
    var lo, hi := DecodeU16(b[..2]), DecodeU16(b[2..]);
    assert DecodeU32(b) % 0x1_0000 == lo && DecodeU32(b) / 0x1_0000 == hi;
    assert EncodeU16(lo) == b[..2] && EncodeU16(hi) == b[2..];
  }

  /** A read accepts nothing but encodings: what it returns is a well-formed message of the type asked for, of the
      current version, whose encoding are the bytes it took. */
  lemma ReadsEncodingsOnly(t: MessageType, stream: Bytes)
    requires ReadMessage(t, stream).result.Ok?
    ensures var r := ReadMessage(t, stream); var m := r.result.value;
      && TypeOf(m) == t && WellFormed(m) && (m.MHello? ==> m.version == 1) && stream == Encode(m) + r.rest
  {
    var n := PacketLength(t);
    var b := stream[..n];
    assert stream == b + stream[n..];
    U32Inverse(b[..4]);
    if t.THello? {
      assert b == b[..4] + [b[4]] + b[5..];
    } else if !t.TAuth? {
      assert b[..4] == b;
    }
  }

  /** A message that has not arrived completely is the end of the stream. */
  lemma TruncatedMessage(m: Message, k: nat)
    requires WellFormed(m) && k < |Encode(m)|
    ensures ReadMessage(TypeOf(m), Encode(m)[..k]) == Read(Err(UnexpectedEof), [])
  {
    LengthFitsEveryVariant(m);
  }

  function EncodeAll(ms: seq<Message>): Bytes {
    if ms == [] then [] else Encode(ms[0]) + EncodeAll(ms[1..])
  }

  function ReadAll(ts: seq<MessageType>, stream: Bytes): Read<seq<Message>>
    decreases |ts|
  {
    if ts == [] then Read(Ok([]), stream)
    else
      var first := ReadMessage(ts[0], stream);
      if first.result.Err? then Read(Err(first.result.error), first.rest)
      else
        var others := ReadAll(ts[1..], first.rest);
        if others.result.Err? then others else Read(Ok([first.result.value] + others.result.value), others.rest)
  }

  function TypesOf(ms: seq<Message>): (ts: seq<MessageType>)
    ensures |ts| == |ms|
  {
    seq(|ms|, i requires 0 <= i < |ms| => TypeOf(ms[i]))
  }

  /** Any sequence of current-version messages decodes back from its concatenated bytes and consumes exactly those. */
  lemma {:induction false} MessagesRoundTrip(ms: seq<Message>, rest: Bytes)
    requires forall m :: m in ms ==> WellFormed(m) && (m.MHello? ==> m.version == CURRENT_PROTO_VERSION)
    ensures ReadAll(TypesOf(ms), EncodeAll(ms) + rest) == Read(Ok(ms), rest)
    decreases |ms|
  {
    if ms == [] {
      assert EncodeAll(ms) + rest == rest;
    } else {
      assert ms[0] in ms;
      var tail := EncodeAll(ms[1..]) + rest;
      assert EncodeAll(ms) + rest == Encode(ms[0]) + tail;
      assert TypesOf(ms)[1..] == TypesOf(ms[1..]);
      MessageRoundTrip(ms[0], tail);
      MessagesRoundTrip(ms[1..], rest);
      assert ms == [ms[0]] + ms[1..];
    }
  }

  // ---------------------------------------------------------------- UDP datagrams on a stream

  /** The part of a socket address that is serialised; flow information and scope of IPv6 are not. */
  datatype SocketAddr = V4(ip: Bytes, port: nat) | V6(ip: Bytes, port: nat)

  predicate ValidAddr(a: SocketAddr) {
    a.port < 0x1_0000 && |a.ip| == if a.V4? then 4 else 16
  }

  datatype Datagram = Datagram(from: SocketAddr, data: Bytes)

  function EncodeAddr(a: SocketAddr): (b: Bytes)
    requires ValidAddr(a)
    ensures |b| == if a.V4? then 10 else 22
  {
    EncodeU32(if a.V4? then 0 else 1) + a.ip + EncodeU16(a.port)
  }

  /** Header: the address and the payload length truncated to 16 bits. */
  function EncodeHeader(a: SocketAddr, len: nat): (b: Bytes)
    requires ValidAddr(a)
    ensures |b| == if a.V4? then 12 else 24
  {
    EncodeAddr(a) + EncodeU16(len % 0x1_0000)
  }

  /** What `write` and `write_slice` put on the stream: the header length in one byte, the header, the whole payload. */
  function EncodeDatagram(d: Datagram): Bytes
    requires ValidAddr(d.from)
  {
    var header := EncodeHeader(d.from, |d.data|);
    [|header|] + header + d.data
  }

  /** A framed datagram, byte by byte: the header's length, the address family, the address, the port and the payload's
      length with their least significant bytes first, the payload. */
  lemma FramedDatagram(ip: Bytes, port: nat, data: Bytes)
    requires port < 0x1_0000 && |data| < 0x1_0000
    ensures |ip| == 4 ==>
      EncodeDatagram(Datagram(V4(ip, port), data))
      == [12, 0, 0, 0, 0] + ip + [port % 256, port / 256, |data| % 256, |data| / 256] + data
    ensures |ip| == 16 ==>
      EncodeDatagram(Datagram(V6(ip, port), data))
      == [24, 1, 0, 0, 0] + ip + [port % 256, port / 256, |data| % 256, |data| / 256] + data
  {
    SmallTag(0);
    SmallTag(1);
    var p, n := EncodeU16(port), EncodeU16(|data|);
    assert p + n == [port % 256, port / 256, |data| % 256, |data| / 256];
    var v4: Bytes, v6: Bytes := [12], [24];
    assert v4 + ([0, 0, 0, 0] + ip + p + n) + data == [12, 0, 0, 0, 0] + ip + (p + n) + data;
    assert v6 + ([1, 0, 0, 0] + ip + p + n) + data == [24, 1, 0, 0, 0] + ip + (p + n) + data;
  }

  datatype Header = Header(from: SocketAddr, len: nat)

  function DecodeHeader(b: Bytes): (r: Result<Header, ReadError>)
    ensures r.Ok? ==> ValidAddr(r.value.from)
  {
    if |b| < 4 then Err(BadEncoding)
    else
      var tag := DecodeU32(b[..4]);
      if tag == 0 && |b| >= 12 then Ok(Header(V4(b[4..8], DecodeU16(b[8..10])), DecodeU16(b[10..12])))
      else if tag == 1 && |b| >= 24 then Ok(Header(V6(b[4..20], DecodeU16(b[20..22])), DecodeU16(b[22..24])))
      else Err(BadEncoding)
  }

  /** `read_u8` followed by `UdpTraffic::read`. */
  function ReadDatagram(stream: Bytes): Read<Datagram> {
    if stream == [] then Read(Err(UnexpectedEof), [])
    else
      var n: nat := stream[0];
      if |stream| < 1 + n then Read(Err(UnexpectedEof), [])
      else
        var header := DecodeHeader(stream[1..1 + n]);
        var body := stream[1 + n..];
        if header.Err? then Read(Err(header.error), body)
        else if |body| < header.value.len then Read(Err(UnexpectedEof), [])
        else Read(Ok(Datagram(header.value.from, body[..header.value.len])), body[header.value.len..])
  }

  lemma HeaderRoundTrip(a: SocketAddr, len: nat)
    requires ValidAddr(a)
    ensures DecodeHeader(EncodeHeader(a, len)) == Ok(Header(a, len % 0x1_0000))
  {
    var b := EncodeHeader(a, len);
    var tag, port, size := EncodeU32(if a.V4? then 0 else 1), EncodeU16(a.port), EncodeU16(len % 0x1_0000);
    U32RoundTrip(if a.V4? then 0 else 1);
    assert b == tag + a.ip + port + size;
    assert b[..4] == tag;
    assert b[4..4 + |a.ip|] == a.ip;
    assert b[4 + |a.ip|..6 + |a.ip|] == port;
    assert b[6 + |a.ip|..8 + |a.ip|] == size;
  }

  /** A datagram followed by anything reads back as itself, leaving exactly what followed, if and only if its payload
      has at most 65535 bytes: a longer one leaves bytes behind that are read as the next datagram. */
  lemma DatagramRoundTripExactly(d: Datagram, rest: Bytes)
    requires ValidAddr(d.from)
    ensures ReadDatagram(EncodeDatagram(d) + rest) == Read(Ok(d), rest) <==> |d.data| <= 65535
  {
    var header := EncodeHeader(d.from, |d.data|);
    var stream := EncodeDatagram(d) + rest;
    var n := |header|;
    HeaderRoundTrip(d.from, |d.data|);
    assert stream == [n] + header + (d.data + rest);
    assert stream[1..1 + n] == header && stream[1 + n..] == d.data + rest;
    if |d.data| <= 65535 {
      assert (d.data + rest)[..|d.data|] == d.data && (d.data + rest)[|d.data|..] == rest;
    }
  }

  /** A datagram that has not arrived completely is the end of the stream. */
  lemma TruncatedDatagram(d: Datagram, k: nat)
    requires ValidAddr(d.from) && |d.data| <= 65535 && k < |EncodeDatagram(d)|
    ensures ReadDatagram(EncodeDatagram(d)[..k]) == Read(Err(UnexpectedEof), [])
  {
    var header := EncodeHeader(d.from, |d.data|);
    var whole := EncodeDatagram(d);
    var n := |header|;
    HeaderRoundTrip(d.from, |d.data|);
    assert whole[0] == n && whole[1..1 + n] == header;
    if k >= 1 + n {
      assert whole[..k][1..1 + n] == header;
    }
  }

  function EncodeDatagrams(ds: seq<Datagram>): Bytes
    requires forall d :: d in ds ==> ValidAddr(d.from)
  {
    if ds == [] then [] else EncodeDatagram(ds[0]) + EncodeDatagrams(ds[1..])
  }

  function ReadDatagrams(n: nat, stream: Bytes): Read<seq<Datagram>>
    decreases n
  {
    if n == 0 then Read(Ok([]), stream)
    else
      var first := ReadDatagram(stream);
      if first.result.Err? then Read(Err(first.result.error), first.rest)
      else
        var others := ReadDatagrams(n - 1, first.rest);
        if others.result.Err? then others else Read(Ok([first.result.value] + others.result.value), others.rest)
  }

  lemma FirstThenOthers(n: nat, stream: Bytes, d: Datagram, tail: Bytes, others: seq<Datagram>, rest: Bytes)
    requires n > 0 && ReadDatagram(stream) == Read(Ok(d), tail) && ReadDatagrams(n - 1, tail) == Read(Ok(others), rest)
    ensures ReadDatagrams(n, stream) == Read(Ok([d] + others), rest)
  {
  }

  /** Any sequence of datagrams of at most 65535 bytes comes back in order and consumes exactly its own bytes. */
  lemma {:induction false} DatagramsRoundTrip(ds: seq<Datagram>, rest: Bytes)
    requires forall d :: d in ds ==> ValidAddr(d.from) && |d.data| <= 65535
    ensures ReadDatagrams(|ds|, EncodeDatagrams(ds) + rest) == Read(Ok(ds), rest)
    decreases |ds|
  {
    if ds == [] {
      assert EncodeDatagrams(ds) + rest == rest;
    } else {
      assert ds[0] in ds;
      var tail := EncodeDatagrams(ds[1..]) + rest;
      Associative(EncodeDatagram(ds[0]), EncodeDatagrams(ds[1..]), rest);
      DatagramRoundTripExactly(ds[0], tail);
      DatagramsRoundTrip(ds[1..], rest);
      FirstThenOthers(|ds|, EncodeDatagram(ds[0]) + tail, ds[0], tail, ds[1..], rest);
      assert ds == [ds[0]] + ds[1..];
    }
  }

  // ---------------------------------------------------------------- one direction of a connection

  /** One direction of a connection: the bytes written and not yet read. */
  class ByteStream {
    var pending: Bytes

    constructor ()
      ensures pending == []
    {
      pending := [];
    }

    method WriteAll(b: Bytes)
      modifies this
      ensures pending == old(pending) + b
    {
      pending := pending + b;
    }

    /** `read_exact`: all `n` bytes, or the end of the stream, which leaves nothing behind. */
    method ReadExact(n: nat) returns (r: Option<Bytes>)
      modifies this
      ensures n <= |old(pending)| ==> r == Some(old(pending)[..n]) && pending == old(pending)[n..]
      ensures n > |old(pending)| ==> r == None && pending == []
    {
      if n <= |pending| {
        r, pending := Some(pending[..n]), pending[n..];
      } else {
        r, pending := None, [];
      }
    }

    method WriteDatagram(d: Datagram)
      requires ValidAddr(d.from)
      modifies this
      ensures pending == old(pending) + EncodeDatagram(d)
    {
      var header := EncodeHeader(d.from, |d.data|);
      WriteAll([|header|]);
      WriteAll(header);
      WriteAll(d.data);
      assert pending == old(pending) + ([|header|] + header + d.data);
    }

    method NextDatagram() returns (r: Result<Datagram, ReadError>)
      modifies this
      ensures Read(r, pending) == ReadDatagram(old(pending))
    {
      var size := ReadExact(1);
      if size.None? {
        return Err(UnexpectedEof);
      }
      var bytes := ReadExact(size.value[0]);
      if bytes.None? {
        return Err(UnexpectedEof);
      }
      ghost var n: nat := old(pending)[0];
      assert bytes.value == old(pending)[1..1 + n] && pending == old(pending)[1 + n..];
      var header := DecodeHeader(bytes.value);
      if header.Err? {
        return Err(header.error);
      }
      var data := ReadExact(header.value.len);
      if data.None? {
        return Err(UnexpectedEof);
      }
      r := Ok(Datagram(header.value.from, data.value));
    }

    method NextMessage(t: MessageType) returns (r: Result<Message, ReadError>)
      modifies this
      ensures Read(r, pending) == ReadMessage(t, old(pending))
    {
      var bytes := ReadExact(PacketLength(t));
      if bytes.None? {
        return Err(UnexpectedEof);
      }
      r := Decode(t, bytes.value);
    }
  }
}
