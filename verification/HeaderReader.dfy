/** Reading an HTTP request header from a stream that arrives in pieces. */
module HeaderReader {
  import opened Basics

  const CHUNK: nat := 1024   // size of the read buffer
  const LIMIT: nat := 8192

  /** What one `read` of the connection yields; an empty piece is the end of the stream. */
  datatype Piece = Data(bytes: Bytes) | IoError

  datatype HeaderError = ConnectionClosed | TooLarge | Io

  /** A CR LF CR LF ends just before position `e`. */
  predicate EndsAt(s: Bytes, e: int) {
    4 <= e <= |s| && s[e - 4] == 13 && s[e - 3] == 10 && s[e - 2] == 13 && s[e - 1] == 10
  }

  predicate Complete(s: Bytes) {
    exists e :: 0 <= e <= |s| && EndsAt(s, e)
  }

  // ---------------------------------------------------------------- the loop

  function ReadOn(buf: Bytes, pieces: seq<Piece>): Result<Bytes, HeaderError>
    decreases |pieces|
  {
    if pieces == [] then Err(ConnectionClosed)
    else if pieces[0].IoError? then Err(Io)
    else if pieces[0].bytes == [] then Err(ConnectionClosed)
    else
      var buf' := buf + pieces[0].bytes;
      if Complete(buf') then Ok(buf') else if |buf'| > LIMIT then Err(TooLarge) else ReadOn(buf', pieces[1..])
  }

  method ReadHttpHeader(pieces: seq<Piece>) returns (r: Result<Bytes, HeaderError>)
    ensures r == ReadOn([], pieces)
  {
    var buf: Bytes := [];
    var i := 0;
    while i < |pieces|
      invariant 0 <= i <= |pieces|
      invariant ReadOn([], pieces) == ReadOn(buf, pieces[i..])
    {
      var piece := pieces[i];
      assert pieces[i..][1..] == pieces[i + 1..];
      if piece.IoError? {
        return Err(Io);
      }
      if piece.bytes == [] {
        return Err(ConnectionClosed);
      }
      buf := buf + piece.bytes;
      if Complete(buf) {
        return Ok(buf);
      }
      if |buf| > LIMIT {
        return Err(TooLarge);
      }
      i := i + 1;
    }
    r := Err(ConnectionClosed);
  }

  // ---------------------------------------------------------------- every way of cutting a stream into pieces

  /** `pieces` is a chunking: every piece carries between 1 and 1024 bytes. */
  predicate Chunking(pieces: seq<Piece>) {
    forall p :: p in pieces ==> p.Data? && 1 <= |p.bytes| <= CHUNK
  }

  function Stream(pieces: seq<Piece>): Bytes
    requires Chunking(pieces)
  {
    if pieces == [] then [] else pieces[0].bytes + Stream(pieces[1..])
  }

  /** `e` is where the first terminator of `s` ends. */
  ghost predicate FirstEnd(s: Bytes, e: nat) {
    EndsAt(s, e) && forall d :: d < e ==> !EndsAt(s, d)
  }

  /** How many bytes arrive in the pieces before the one that reaches position `e`. */
  function Before(pieces: seq<Piece>, e: int): (n: nat)
    requires Chunking(pieces)
    ensures e > 0 ==> n < e
    ensures |Stream(pieces)| >= e ==> n >= e - CHUNK
  {
    if pieces == [] || |pieces[0].bytes| >= e then 0
    else |pieces[0].bytes| + Before(pieces[1..], e - |pieces[0].bytes|)
  }

  lemma {:induction false} ReadsExactly(buf: Bytes, pieces: seq<Piece>, e: nat)
    requires Chunking(pieces) && FirstEnd(buf + Stream(pieces), e) && |buf| < e && |buf| <= LIMIT
    ensures ReadOn(buf, pieces).Ok? <==> |buf| + Before(pieces, e - |buf|) <= LIMIT
    ensures ReadOn(buf, pieces).Ok? ==>
      var r := ReadOn(buf, pieces).value;
      r <= buf + Stream(pieces) && |r| <= LIMIT + CHUNK && e <= |r|
    decreases |pieces|
  {
    if pieces == [] {
    } else {
      var s, buf' := buf + Stream(pieces), buf + pieces[0].bytes;
      assert s == buf' + Stream(pieces[1..]);
      assert forall d :: d <= |buf'| ==> (EndsAt(buf', d) <==> EndsAt(s, d));
      if |buf'| < e && |buf'| <= LIMIT {
        ReadsExactly(buf', pieces[1..], e);
      } else if |buf'| >= e {
        assert EndsAt(buf', e);
      }
    }
  }

  lemma {:induction false} NeverWithoutTerminator(buf: Bytes, pieces: seq<Piece>)
    requires Chunking(pieces) && !Complete(buf + Stream(pieces))
    ensures ReadOn(buf, pieces).Err?
    decreases |pieces|
  {
    if pieces == [] {
    } else {
      var s, buf' := buf + Stream(pieces), buf + pieces[0].bytes;
      assert s == buf' + Stream(pieces[1..]);
      assert forall d :: d <= |buf'| && EndsAt(buf', d) ==> EndsAt(s, d);
      NeverWithoutTerminator(buf', pieces[1..]);
    }
  }

  /** How a read without a terminator ends.  If more than 8192 bytes arrive the header is too large; otherwise the
      reader waits for the next piece, and an error of the connection or its end is reported as such. */
  lemma {:induction false} ErrorExactly(buf: Bytes, pieces: seq<Piece>, more: seq<Piece>)
    requires Chunking(pieces) && !Complete(buf + Stream(pieces)) && |buf| <= 8192
    requires more == [] || more[0] == IoError || more[0] == Data([])
    ensures ReadOn(buf, pieces + more)
         == Err(if |buf + Stream(pieces)| > 8192 then TooLarge
                else if more != [] && more[0] == IoError then Io else ConnectionClosed)
    decreases |pieces|
  {
    if pieces == [] {
      assert pieces + more == more;
    } else {
      var s, buf' := buf + Stream(pieces), buf + pieces[0].bytes;
      assert (pieces + more)[1..] == pieces[1..] + more && (pieces + more)[0] == pieces[0];
      assert s == buf' + Stream(pieces[1..]);
      assert forall d :: d <= |buf'| && EndsAt(buf', d) ==> EndsAt(s, d);
      if |buf'| <= 8192 {
        ErrorExactly(buf', pieces[1..], more);
      }
    }
  }

  lemma FirstEndExists(s: Bytes, n: nat) returns (e: nat)
    requires EndsAt(s, n)
    ensures FirstEnd(s, e) && e <= n
  {
    e := n;
    if d :| d < n && EndsAt(s, d) {
      e := FirstEndExists(s, d);
    }
  }

  /** The bytes CR LF CR LF stand just before position `e`. */
  predicate Terminated(s: Bytes, e: int) {
    4 <= e <= |s| && s[e - 4..e] == [13, 10, 13, 10]
  }

  /** And nowhere earlier. */
  ghost predicate FirstTerminator(s: Bytes, e: nat) {
    Terminated(s, e) && forall d :: d < e ==> !Terminated(s, d)
  }

  lemma TerminatorEnds(s: Bytes, d: int)
    ensures EndsAt(s, d) <==> Terminated(s, d)
  {
    if 4 <= d <= |s| {
      var w := s[d - 4..d];
      assert w[0] == s[d - 4] && w[1] == s[d - 3] && w[2] == s[d - 2] && w[3] == s[d - 1];
      assert EndsAt(s, d) ==> w == [13, 10, 13, 10];
    }
  }

  /** For every chunking of a stream: the header is read exactly when the pieces before the one that completes the
      first terminator carry at most 8192 bytes.  Then it is a prefix of the stream of at most 9216 bytes that contains
      the terminator; a terminator ending within 8192 bytes always succeeds, one ending after 9216 always fails. */
  lemma HeaderReadExactly(pieces: seq<Piece>, e: nat)
    requires (forall p :: p in pieces ==> p.Data? && 1 <= |p.bytes| <= 1024) && FirstTerminator(Stream(pieces), e)
    ensures ReadOn([], pieces).Ok? <==> Before(pieces, e) <= 8192
    ensures ReadOn([], pieces).Ok? ==>
      var r := ReadOn([], pieces).value; r <= Stream(pieces) && e <= |r| <= 9216 && r[e - 4..e] == [13, 10, 13, 10]
    ensures e <= 8192 ==> ReadOn([], pieces).Ok?
    ensures e > 9216 ==> ReadOn([], pieces).Err?
  {
    var s := Stream(pieces);
    assert [] + s == s;
    TerminatorEnds(s, e);
    forall d | d < e ensures !EndsAt(s, d) {
      TerminatorEnds(s, d);
    }
    ReadsExactly([], pieces, e);
    if ReadOn([], pieces).Ok? {
      var r := ReadOn([], pieces).value;
      assert r[e - 4..e] == s[e - 4..e];
    }
  }
}
