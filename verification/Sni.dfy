/** Server Name Indication: extracting the host name from the first TLS record of a connection.

    The wire format is the ClientHello of section 7.4.1.2 of RFC 5246 and section 4.1.2 of RFC 8446 with the
    server_name extension of section 3 of RFC 6066. */
module Sni {
  import opened Basics
  import opened Utf8

  function BigEndian16(b: Bytes, i: nat): (n: nat)
    requires i + 2 <= |b|
    ensures n < 0x1_0000
  {
    b[i] as int * 256 + b[i + 1] as int
  }

  // ---------------------------------------------------------------- specification of the scan

  /** What the scan of a name list ends with: the bounds of the first usable host_name, or nothing. */
  function ScanNames(h: Bytes, pos: nat, end: nat): (r: Option<(nat, nat)>)
    ensures r.Some? ==> pos <= r.value.0 <= r.value.1 <= |h|
    decreases |h| - pos
  {
    if pos + 3 <= end && pos + 3 <= |h| then
      var n := BigEndian16(h, pos + 1);
      if h[pos] == 0 && pos + 3 + n <= |h| then Some((pos + 3, pos + 3 + n))
      else ScanNames(h, pos + 3 + n, end)
    else None
  }

  datatype Scan = Found(lo: nat, hi: nat) | NotFound

  function ScanExtensions(h: Bytes, pos: nat, end: nat): (r: Scan)
    ensures r.Found? ==> r.lo <= r.hi <= |h|
    decreases |h| - pos
  {
    if pos + 4 <= end && pos + 4 <= |h| then
      var n := BigEndian16(h, pos + 2);
      if BigEndian16(h, pos) != 0 then ScanExtensions(h, pos + 4 + n, end)
      else if pos + 6 > |h| then NotFound
      else
        match ScanNames(h, pos + 6, pos + 6 + BigEndian16(h, pos + 4))
        case Some((lo, hi)) => Found(lo, hi)
        case None => ScanExtensions(h, pos + 4 + n, end)
    else NotFound
  }

  /** The bounds of the extension block of a handshake message, if the fields before it fit. */
  function ExtensionBlock(h: Bytes): (r: Option<(nat, nat)>)
    ensures r.Some? ==> r.value.0 <= |h|
  {
    if h == [] || h[0] != 1 || |h| <= 38 then None
    else
      var afterSession: nat := 39 + h[38] as int;
      if afterSession + 2 > |h| then None
      else
        var afterCiphers := afterSession + 2 + BigEndian16(h, afterSession);
        if afterCiphers >= |h| then None
        else
          var afterCompression: nat := afterCiphers + 1 + h[afterCiphers] as int;
          if afterCompression + 2 > |h| then None
          else Some((afterCompression + 2, afterCompression + 2 + BigEndian16(h, afterCompression)))
  }

  /** The name found in a handshake message; invalid UTF-8 counts as no name. */
  function NameIn(h: Bytes): Option<Bytes> {
    match ExtensionBlock(h)
    case None => None
    case Some((pos, end)) =>
      match ScanExtensions(h, pos, end)
      case NotFound => None
      case Found(lo, hi) => if ValidUtf8(h[lo..hi]) then Some(h[lo..hi]) else None
  }

  /** The content of the first record, if it is a complete handshake record. */
  function FirstRecord(buf: Bytes): Option<Bytes> {
    if |buf| < 5 || buf[0] != 0x16 then None
    else
      var n := BigEndian16(buf, 3);
      if |buf| < 5 + n then None else Some(buf[5..5 + n])
  }

  function Extracted(buf: Bytes): Option<Bytes> {
    match FirstRecord(buf) case None => None case Some(h) => NameIn(h)
  }

  // ---------------------------------------------------------------- implementation

  /** Total: every access is in bounds and both loops end, for every input. */
  method ExtractSni(buf: Bytes) returns (r: Option<Bytes>)
    ensures r == Extracted(buf)
  {
    if |buf| < 5 {
      return None;
    }
    if buf[0] != 0x16 {
      return None;
    }
    var recordLen := BigEndian16(buf, 3);
    if |buf| < 5 + recordLen {
      return None;
    }
    var handshake := buf[5..5 + recordLen];
    var block := SkipToExtensions(handshake);
    if block.None? {
      return None;
    }
    r := WalkExtensions(handshake, block.value.0, block.value.1);
  }

  /** Step over the fixed and length-prefixed fields before the extension block. */
  method SkipToExtensions(handshake: Bytes) returns (r: Option<(nat, nat)>)
    ensures r == ExtensionBlock(handshake)
  {
    if |handshake| == 0 || handshake[0] != 0x01 {
      return None;
    }
    var pos: nat := 4 + 2 + 32;
    if pos >= |handshake| {
      return None;
    }
    var sessionIdLen: nat := handshake[pos];
    pos := pos + 1 + sessionIdLen;
    if pos + 2 > |handshake| {
      return None;
    }
    pos := pos + 2 + BigEndian16(handshake, pos);
    if pos >= |handshake| {
      return None;
    }
    var compMethodsLen: nat := handshake[pos];
    pos := pos + 1 + compMethodsLen;
    if pos + 2 > |handshake| {
      return None;
    }
    var extensionsLen := BigEndian16(handshake, pos);
    r := Some((pos + 2, pos + 2 + extensionsLen));
  }

  /** The inner loop over a name list. */
  method WalkNames(handshake: Bytes, start: nat, sniEnd: nat) returns (r: Option<(nat, nat)>)
    ensures r == ScanNames(handshake, start, sniEnd)
  {
    var sniPos := start;
    while sniPos + 3 <= sniEnd && sniPos + 3 <= |handshake|
      invariant ScanNames(handshake, start, sniEnd) == ScanNames(handshake, sniPos, sniEnd)
      decreases |handshake| - sniPos
    {
      var nameType, nameLen := handshake[sniPos], BigEndian16(handshake, sniPos + 1);
      sniPos := sniPos + 3;
      if nameType == 0 && sniPos + nameLen <= |handshake| {
        return Some((sniPos, sniPos + nameLen));
      }
      sniPos := sniPos + nameLen;
    }
    r := None;
  }

  method WalkExtensions(handshake: Bytes, start: nat, end: nat) returns (r: Option<Bytes>)
    ensures match ScanExtensions(handshake, start, end)
            case NotFound => r == None
            case Found(lo, hi) => r == if ValidUtf8(handshake[lo..hi]) then Some(handshake[lo..hi]) else None
  {
    var pos := start;
    while pos + 4 <= end && pos + 4 <= |handshake|
      invariant ScanExtensions(handshake, start, end) == ScanExtensions(handshake, pos, end)
      decreases |handshake| - pos
    {
      var extType, extLen := BigEndian16(handshake, pos), BigEndian16(handshake, pos + 2);
      pos := pos + 4;
      if extType == 0 {
        if pos + 2 > |handshake| {
          return None;
        }
        var found := WalkNames(handshake, pos + 2, pos + 2 + BigEndian16(handshake, pos));
        if found.Some? {
          var name := handshake[found.value.0..found.value.1];
          return if ValidUtf8(name) then Some(name) else None;
        }
      }
      pos := pos + extLen;
    }
    r := None;
  }

  // ---------------------------------------------------------------- locality

  /** The answer is a contiguous piece of the first record, and bytes after a complete record never change it. */
  lemma AnswerIsLocal(buf: Bytes, more: Bytes)
    ensures Extracted(buf).Some? ==> exists lo, hi ::
      0 <= lo <= hi <= |FirstRecord(buf).value| && FirstRecord(buf).value[lo..hi] == Extracted(buf).value
    ensures FirstRecord(buf).Some? ==> Extracted(buf + more) == Extracted(buf)
  {
    if FirstRecord(buf).Some? {
      var n := BigEndian16(buf, 3);
      assert (buf + more)[5..5 + n] == buf[5..5 + n];
    }
  }

  /** Anything but a complete record of type 22 that starts with a handshake message of type 1 has no name. */
  lemma OnlyClientHello(buf: Bytes)
    ensures Extracted(buf).Some? ==>
      && |buf| > 5 && buf[0] == 22 && buf[5] == 1
      && 1 <= buf[3] as int * 256 + buf[4] as int <= |buf| - 5
    ensures FirstRecord(buf).Some? ==> |FirstRecord(buf).value| == buf[3] as int * 256 + buf[4] as int
    ensures FirstRecord(buf).Some? ==> [22] + buf[1..5] + FirstRecord(buf).value <= buf
  {
    if FirstRecord(buf).Some? {
      var n := BigEndian16(buf, 3);
      assert buf[..5 + n] == [22] + buf[1..5] + buf[5..5 + n];
    }
  }

  // ---------------------------------------------------------------- the wire format

  datatype ServerName = ServerName(nameType: byte, name: Bytes)

  datatype Extension =
    | ServerNames(names: seq<ServerName>)
    | Other(extType: nat, data: Bytes)

  datatype ClientHello = ClientHello(
    version: Bytes,
    random: Bytes,
    sessionId: Bytes,
    cipherSuites: Bytes,
    compression: Bytes,
    extensions: Option<seq<Extension>>)

  function Put16(n: nat): (b: Bytes)
    requires n < 0x1_0000
    ensures |b| == 2 && BigEndian16(b, 0) == n
  {
    [n / 256, n % 256]
  }

  function EncodeNames(ns: seq<ServerName>): Bytes
    requires forall n :: n in ns ==> |n.name| < 0x1_0000
  {
    if ns == [] then [] else [ns[0].nameType] + (Put16(|ns[0].name|) + (ns[0].name + EncodeNames(ns[1..])))
  }

  predicate FitsExtension(e: Extension) {
    match e
    case ServerNames(ns) => (forall n :: n in ns ==> |n.name| < 0x1_0000) && |EncodeNames(ns)| < 0x1_0000 - 2
    case Other(t, data) => 0 < t < 0x1_0000 && |data| < 0x1_0000
  }

  function ExtensionData(e: Extension): (b: Bytes)
    requires FitsExtension(e)
    ensures |b| < 0x1_0000
  {
    match e
    case ServerNames(ns) => Put16(|EncodeNames(ns)|) + EncodeNames(ns)
    case Other(_, data) => data
  }

  function ExtensionType(e: Extension): (t: nat)
    requires FitsExtension(e)
    ensures t < 0x1_0000 && (t == 0 <==> e.ServerNames?)
  {
    if e.ServerNames? then 0 else e.extType
  }

  function EncodeParts(tag: nat, data: Bytes): (b: Bytes)
    requires tag < 0x1_0000 && |data| < 0x1_0000
    ensures |b| == 4 + |data|
  {
    Put16(tag) + (Put16(|data|) + data)
  }

  function EncodeExtension(e: Extension): (b: Bytes)
    requires FitsExtension(e)
    ensures |b| == 4 + |ExtensionData(e)|
  {
    EncodeParts(ExtensionType(e), ExtensionData(e))
  }

  function EncodeExtensions(es: seq<Extension>): Bytes
    requires forall e :: e in es ==> FitsExtension(e)
  {
    if es == [] then [] else EncodeExtension(es[0]) + EncodeExtensions(es[1..])
  }

  predicate Fits(c: ClientHello) {
    && |c.version| == 2 && |c.random| == 32
    && |c.sessionId| < 256 && |c.cipherSuites| < 0x1_0000 && |c.compression| < 256
    && (c.extensions.Some? ==>
          && (forall e :: e in c.extensions.value ==> FitsExtension(e))
          && |EncodeExtensions(c.extensions.value)| < 0x1_0000)
  }

  function EncodeBlock(extensions: Option<seq<Extension>>): Bytes
    requires extensions.Some? ==>
      && (forall e :: e in extensions.value ==> FitsExtension(e))
      && |EncodeExtensions(extensions.value)| < 0x1_0000
  {
    if extensions.None? then [] else Put16(|EncodeExtensions(extensions.value)|) + EncodeExtensions(extensions.value)
  }

  /** The length-prefixed fields and the extension block. */
  function EncodeVectors(c: ClientHello): Bytes
    requires Fits(c)
  {
    [|c.sessionId|] + (c.sessionId
    + (Put16(|c.cipherSuites|) + (c.cipherSuites
    + ([|c.compression|] + (c.compression + EncodeBlock(c.extensions))))))
  }

  function EncodeBody(c: ClientHello): Bytes
    requires Fits(c)
  {
    c.version + (c.random + EncodeVectors(c))
  }

  /** A handshake message: type 1, a 24-bit length and the body. */
  function EncodeHandshake(c: ClientHello): Bytes
    requires Fits(c)
  {
    var n := |EncodeBody(c)|;
    [1, n / 0x1_0000 % 256, n / 256 % 256, n % 256] + EncodeBody(c)
  }

  function EncodeRecord(version: Bytes, c: ClientHello): Bytes
    requires |version| == 2 && Fits(c) && |EncodeHandshake(c)| < 0x1_0000
  {
    [0x16] + (version + (Put16(|EncodeHandshake(c)|) + EncodeHandshake(c)))
  }

  /** The first host_name entry of the server_name extensions. */
  function FirstHostName(ns: seq<ServerName>): Option<Bytes> {
    if ns == [] then None else if ns[0].nameType == 0 then Some(ns[0].name) else FirstHostName(ns[1..])
  }

  function FirstHost(es: seq<Extension>): Option<Bytes> {
    if es == [] then None
    else if es[0].ServerNames? && FirstHostName(es[0].names).Some? then FirstHostName(es[0].names)
    else FirstHost(es[1..])
  }

  // ---------------------------------------------------------------- round trip

  /** The bytes `b` stand at position `pos`. */
  ghost predicate At(h: Bytes, pos: nat, b: Bytes) {
    pos + |b| <= |h| && h[pos..pos + |b|] == b
  }

  lemma Split(h: Bytes, pos: nat, a: Bytes, b: Bytes)
    requires At(h, pos, a + b)
    ensures At(h, pos, a) && At(h, pos + |a|, b)
  {
    assert h[pos..pos + |a|] == h[pos..pos + |a + b|][..|a|];
    assert h[pos + |a|..pos + |a| + |b|] == h[pos..pos + |a + b|][|a|..];
  }

  lemma Read8(h: Bytes, pos: nat, n: byte)
    requires At(h, pos, [n])
    ensures h[pos] == n
  {
    assert h[pos] == h[pos..pos + 1][0];
  }

  lemma Read16(h: Bytes, pos: nat, n: nat)
    requires n < 0x1_0000 && At(h, pos, Put16(n))
    ensures BigEndian16(h, pos) == n
  {
    assert h[pos] == h[pos..pos + 2][0] && h[pos + 1] == h[pos..pos + 2][1];
  }

  /** A vector behind a one-byte length. */
  lemma Vector8(h: Bytes, pos: nat, x: Bytes, rest: Bytes)
    requires |x| < 256 && At(h, pos, [|x|] + (x + rest))
    ensures h[pos] == |x| && At(h, pos + 1 + |x|, rest)
  {
    Split(h, pos, [|x|], x + rest);
    Read8(h, pos, |x|);
    Split(h, pos + 1, x, rest);
  }

  /** A vector behind a two-byte length. */
  lemma Vector16(h: Bytes, pos: nat, x: Bytes, rest: Bytes)
    requires |x| < 0x1_0000 && At(h, pos, Put16(|x|) + (x + rest))
    ensures BigEndian16(h, pos) == |x| && At(h, pos + 2, x) && At(h, pos + 2 + |x|, rest)
  {
    Split(h, pos, Put16(|x|), x + rest);
    Read16(h, pos, |x|);
    Split(h, pos + 2, x, rest);
  }

  lemma NameParts(h: Bytes, pos: nat, n: ServerName, rest: Bytes)
    requires |n.name| < 0x1_0000 && At(h, pos, [n.nameType] + (Put16(|n.name|) + (n.name + rest)))
    ensures h[pos] == n.nameType && BigEndian16(h, pos + 1) == |n.name|
    ensures At(h, pos + 3, n.name) && At(h, pos + 3 + |n.name|, rest)
  {
    Split(h, pos, [n.nameType], Put16(|n.name|) + (n.name + rest));
    Read8(h, pos, n.nameType);
    Vector16(h, pos + 1, n.name, rest);
  }

  lemma FirstName(h: Bytes, pos: nat, ns: seq<ServerName>)
    requires ns != [] && forall n :: n in ns ==> |n.name| < 0x1_0000
    requires At(h, pos, EncodeNames(ns))
    ensures h[pos] == ns[0].nameType && BigEndian16(h, pos + 1) == |ns[0].name|
    ensures h[pos + 3..pos + 3 + |ns[0].name|] == ns[0].name
    ensures At(h, pos + 3 + |ns[0].name|, EncodeNames(ns[1..]))
  {
    assert ns[0] in ns;
    NameParts(h, pos, ns[0], EncodeNames(ns[1..]));
  }

  lemma {:induction false} ScanNamesFinds(h: Bytes, pos: nat, ns: seq<ServerName>, end: nat)
    requires forall n :: n in ns ==> |n.name| < 0x1_0000
    requires At(h, pos, EncodeNames(ns)) && end == pos + |EncodeNames(ns)|
    ensures NamesFound(h, pos, end, ns)
    decreases |ns|
  {
    if ns == [] {
    } else {
      FirstName(h, pos, ns);
      ScanNamesFinds(h, pos + 3 + |ns[0].name|, ns[1..], end);
    }
  }

  /** An extension of type `tag` at `pos` with its data, followed by `rest`. */
  ghost predicate PartsAt(h: Bytes, pos: nat, tag: nat, data: Bytes, rest: Bytes) {
    && pos + 4 <= |h| && BigEndian16(h, pos) == tag && BigEndian16(h, pos + 2) == |data|
    && At(h, pos + 4, data) && At(h, pos + 4 + |data|, rest)
  }

  lemma ExtensionParts(h: Bytes, pos: nat, tag: nat, data: Bytes, rest: Bytes)
    requires tag < 0x1_0000 && |data| < 0x1_0000 && At(h, pos, EncodeParts(tag, data) + rest)
    ensures PartsAt(h, pos, tag, data, rest)
  {
    Split(h, pos, EncodeParts(tag, data), rest);
    Split(h, pos, Put16(tag), Put16(|data|) + data);
    Split(h, pos + 2, Put16(|data|), data);
    Read16(h, pos, tag);
    Read16(h, pos + 2, |data|);
  }

  lemma FirstExtension(h: Bytes, pos: nat, es: seq<Extension>)
    requires es != [] && forall e :: e in es ==> FitsExtension(e)
    requires At(h, pos, EncodeExtensions(es))
    ensures FitsExtension(es[0])
    ensures PartsAt(h, pos, ExtensionType(es[0]), ExtensionData(es[0]), EncodeExtensions(es[1..]))
    ensures |EncodeExtensions(es)| == 4 + |ExtensionData(es[0])| + |EncodeExtensions(es[1..])|
  {
    assert es[0] in es;
    ExtensionParts(h, pos, ExtensionType(es[0]), ExtensionData(es[0]), EncodeExtensions(es[1..]));
  }

  /** The scan of a name list agrees with the list. */
  ghost predicate NamesFound(h: Bytes, pos: nat, end: nat, ns: seq<ServerName>) {
    match ScanNames(h, pos, end)
    case Some((lo, hi)) => FirstHostName(ns) == Some(h[lo..hi])
    case None => FirstHostName(ns) == None
  }

  /** The scan of an extension block agrees with the extensions. */
  ghost predicate HostFound(h: Bytes, pos: nat, end: nat, es: seq<Extension>) {
    match ScanExtensions(h, pos, end)
    case Found(lo, hi) => FirstHost(es) == Some(h[lo..hi])
    case NotFound => FirstHost(es) == None
  }

  lemma ListedNames(h: Bytes, pos: nat, ns: seq<ServerName>)
    requires FitsExtension(ServerNames(ns)) && At(h, pos, ExtensionData(ServerNames(ns)))
    ensures pos + 2 <= |h| && NamesFound(h, pos + 2, pos + 2 + BigEndian16(h, pos), ns)
  {
    var names := EncodeNames(ns);
    Split(h, pos, Put16(|names|), names);
    Read16(h, pos, |names|);
    ScanNamesFinds(h, pos + 2, ns, pos + 2 + |names|);
  }

  /** One step of the extension scan; `body` is where the extension's data starts and `next` where it ends. */
  lemma ScanStep(h: Bytes, pos: nat, end: nat, body: nat, next: nat, e: Extension, es: seq<Extension>)
    requires pos + 4 <= end && pos + 4 <= |h| && body == pos + 4 && next == body + BigEndian16(h, pos + 2)
    requires BigEndian16(h, pos) == 0 <==> e.ServerNames?
    requires e.ServerNames? ==> body + 2 <= |h| && NamesFound(h, body + 2, body + 2 + BigEndian16(h, body), e.names)
    requires HostFound(h, next, end, es)
    ensures HostFound(h, pos, end, [e] + es)
  {
    assert ([e] + es)[1..] == es;
  }

  lemma {:induction false} ScanExtensionsFinds(h: Bytes, pos: nat, es: seq<Extension>, end: nat)
    requires forall e :: e in es ==> FitsExtension(e)
    requires At(h, pos, EncodeExtensions(es)) && end == pos + |EncodeExtensions(es)|
    ensures HostFound(h, pos, end, es)
    decreases |es|
  {
    if es == [] {
    } else {
      FirstExtension(h, pos, es);
      var body := pos + 4;
      var next := body + |ExtensionData(es[0])|;
      ScanExtensionsFinds(h, next, es[1..], end);
      if es[0].ServerNames? {
        ListedNames(h, body, es[0].names);
      }
      ScanStep(h, pos, end, body, next, es[0], es[1..]);
      assert es == [es[0]] + es[1..];
    }
  }

  lemma AfterFixedFields(c: ClientHello)
    requires Fits(c)
    ensures At(EncodeHandshake(c), 38, EncodeVectors(c)) && |EncodeHandshake(c)| == 38 + |EncodeVectors(c)|
  {
    var h := EncodeHandshake(c);
    assert At(h, 4, EncodeBody(c));
    Split(h, 4, c.version, c.random + EncodeVectors(c));
    Split(h, 6, c.random, EncodeVectors(c));
  }

  lemma ThreeVectors(h: Bytes, x: Bytes, y: Bytes, z: Bytes, rest: Bytes)
    requires |x| < 256 && |y| < 0x1_0000 && |z| < 256
    requires var t2 := [|z|] + (z + rest);
      At(h, 38, [|x|] + (x + (Put16(|y|) + (y + t2))))
    ensures h[38] == |x|
    ensures var s := 39 + |x|;
      var k := s + 2 + |y|;
      BigEndian16(h, s) == |y| && h[k] == |z| && At(h, k + 1 + |z|, rest)
  {
    var t2 := [|z|] + (z + rest);
    var t1 := Put16(|y|) + (y + t2);
    var s := 39 + |x|;
    var k := s + 2 + |y|;
    Vector8(h, 38, x, t1);
    Vector16(h, s, y, t2);
    Vector8(h, k, z, rest);
  }

  lemma AfterVectors(h: Bytes, c: ClientHello)
    requires Fits(c) && At(h, 38, EncodeVectors(c)) && |h| == 38 + |EncodeVectors(c)|
    ensures h[38] == |c.sessionId|
    ensures var s := 39 + |c.sessionId|;
      var k := s + 2 + |c.cipherSuites|;
      var x := k + 1 + |c.compression|;
      && |h| == x + |EncodeBlock(c.extensions)|
      && BigEndian16(h, s) == |c.cipherSuites| && h[k] == |c.compression|
      && At(h, x, EncodeBlock(c.extensions))
  {
    ThreeVectors(h, c.sessionId, c.cipherSuites, c.compression, EncodeBlock(c.extensions));
  }

  /** The fields before the extension block are skipped exactly. */
  lemma BlockLocated(h: Bytes, c: ClientHello)
    requires Fits(c) && At(h, 38, EncodeVectors(c)) && |h| == 38 + |EncodeVectors(c)| && h[0] == 1
    ensures c.extensions.None? ==> ExtensionBlock(h) == None
    ensures c.extensions.Some? ==>
      var r := ExtensionBlock(h);
      && r.Some? && r.value.1 == r.value.0 + |EncodeExtensions(c.extensions.value)|
      && At(h, r.value.0, EncodeExtensions(c.extensions.value))
  {
    AfterVectors(h, c);
    if c.extensions.Some? {
      var x := 42 + |c.sessionId| + |c.cipherSuites| + |c.compression|;
      var block := EncodeExtensions(c.extensions.value);
      Split(h, x, Put16(|block|), block);
      Read16(h, x, |block|);
    }
  }

  lemma HandshakeRoundTrip(c: ClientHello)
    requires Fits(c)
    ensures NameIn(EncodeHandshake(c))
         == if c.extensions.None? then None
            else match FirstHost(c.extensions.value)
                 case None => None
                 case Some(name) => if ValidUtf8(name) then Some(name) else None
  {
    var h := EncodeHandshake(c);
    AfterFixedFields(c);
    BlockLocated(h, c);
    if c.extensions.Some? {
      var (lo, hi) := ExtensionBlock(h).value;
      ScanExtensionsFinds(h, lo, c.extensions.value, hi);
    }
  }

  lemma RecordFound(version: Bytes, h: Bytes)
    requires |version| == 2 && |h| < 0x1_0000
    ensures FirstRecord([0x16] + (version + (Put16(|h|) + h))) == Some(h)
  {
    var buf := [0x16] + (version + (Put16(|h|) + h));
    assert At(buf, 0, buf);
    Split(buf, 0, [0x16], version + (Put16(|h|) + h));
    Split(buf, 1, version, Put16(|h|) + h);
    Split(buf, 3, Put16(|h|), h);
    Read16(buf, 3, |h|);
  }

  /** Two-byte lengths are in network order. */
  lemma NetworkOrder(hi: byte, lo: byte)
    ensures BigEndian16([hi, lo], 0) == 256 * hi as int + lo as int
    ensures Put16(256 * hi as int + lo as int) == [hi, lo]
  {
  }

  /** Part of a record has no name yet. */
  lemma TruncatedRecord(version: Bytes, c: ClientHello, k: nat)
    requires |version| == 2 && Fits(c) && |EncodeHandshake(c)| < 0x1_0000 && k < |EncodeRecord(version, c)|
    ensures Extracted(EncodeRecord(version, c)[..k]) == None
  {
    var h := EncodeHandshake(c);
    var buf := EncodeRecord(version, c);
    assert At(buf, 0, buf);
    Split(buf, 0, [0x16], version + (Put16(|h|) + h));
    Split(buf, 1, version, Put16(|h|) + h);
    Split(buf, 3, Put16(|h|), h);
    Read16(buf, 3, |h|);
    assert k >= 5 ==> BigEndian16(buf[..k], 3) == BigEndian16(buf, 3);
  }

  /** SNI round trip: for every well-formed ClientHello in one record, with any session id, cipher list, compression
      list and extensions, followed by anything, the answer is the first host_name entry of the encoded server_name
      extensions (none if it is not UTF-8), and none if there is no such entry. */
  lemma SniRoundTrip(version: Bytes, c: ClientHello, more: Bytes)
    requires |version| == 2 && Fits(c) && |EncodeHandshake(c)| < 0x1_0000
    ensures Extracted(EncodeRecord(version, c) + more)
         == if c.extensions.None? then None
            else match FirstHost(c.extensions.value)
                 case None => None
                 case Some(name) => if ValidUtf8(name) then Some(name) else None
  {
    RecordFound(version, EncodeHandshake(c));
    HandshakeRoundTrip(c);
    AnswerIsLocal(EncodeRecord(version, c), more);
  }
}
