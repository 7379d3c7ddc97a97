/** Base64 (section 4 of RFC 4648): the dashboard's encoder, the proxy's decoder, and Basic authentication on top.

    The 32-bit shifts and masks of both are written as multiplications, divisions and remainders by powers of two. */
module Base64 {
  import opened Basics
  import opened Utf8

  const PAD: byte := 0x3D

  type Sextet = v: int | 0 <= v < 64

  /** The alphabet: A-Z, a-z, 0-9, plus and slash. */
  function Symbol(v: Sextet): (b: byte)
    ensures b != PAD
  {
    if v < 26 then 0x41 + v
    else if v < 52 then 0x61 + (v - 26)
    else if v < 62 then 0x30 + (v - 52)
    else if v == 62 then 0x2B
    else 0x2F
  }

  /** The alphabet of section 4 of RFC 4648, value by value (its table 1). */
  function Letter(v: Sextet): char {
    match v
    case 0 => 'A' case 1 => 'B' case 2 => 'C' case 3 => 'D' case 4 => 'E' case 5 => 'F' case 6 => 'G'
    case 7 => 'H' case 8 => 'I' case 9 => 'J' case 10 => 'K' case 11 => 'L' case 12 => 'M' case 13 => 'N'
    case 14 => 'O' case 15 => 'P' case 16 => 'Q' case 17 => 'R' case 18 => 'S' case 19 => 'T' case 20 => 'U'
    case 21 => 'V' case 22 => 'W' case 23 => 'X' case 24 => 'Y' case 25 => 'Z' case 26 => 'a' case 27 => 'b'
    case 28 => 'c' case 29 => 'd' case 30 => 'e' case 31 => 'f' case 32 => 'g' case 33 => 'h' case 34 => 'i'
    case 35 => 'j' case 36 => 'k' case 37 => 'l' case 38 => 'm' case 39 => 'n' case 40 => 'o' case 41 => 'p'
    case 42 => 'q' case 43 => 'r' case 44 => 's' case 45 => 't' case 46 => 'u' case 47 => 'v' case 48 => 'w'
    case 49 => 'x' case 50 => 'y' case 51 => 'z' case 52 => '0' case 53 => '1' case 54 => '2' case 55 => '3'
    case 56 => '4' case 57 => '5' case 58 => '6' case 59 => '7' case 60 => '8' case 61 => '9' case 62 => '+'
    case _ => '/'
  }

  lemma SymbolIsLetter(v: Sextet)
    ensures Symbol(v) == Letter(v) as int
  {
  }

  // ---------------------------------------------------------------- encoder

  function Triple(b0: byte, b1: byte, b2: byte): nat {
    b0 as int * 0x1_0000 + b1 as int * 0x100 + b2 as int
  }

  /** The four characters of three bytes of which the last ones may be missing. */
  function Quad(b0: byte, b1: byte, b2: byte, available: nat): (s: Bytes)
    ensures |s| == 4
  {
    var triple := Triple(b0, b1, b2);
    [Symbol(triple / 0x4_0000 % 64),
     Symbol(triple / 0x1000 % 64),
     if available > 1 then Symbol(triple / 64 % 64) else PAD,
     if available > 2 then Symbol(triple % 64) else PAD]
  }

  /** The four characters of the (zero-padded) three bytes at the head of `x`. */
  function EncodeHead(x: Bytes): (s: Bytes)
    requires x != []
    ensures |s| == 4
  {
    Quad(x[0], if |x| > 1 then x[1] else 0, if |x| > 2 then x[2] else 0, |x|)
  }

  function Encode(x: Bytes): Bytes {
    if x == [] then [] else EncodeHead(x) + (if |x| <= 3 then [] else Encode(x[3..]))
  }

  function Groups(n: nat): nat {
    if n == 0 then 0 else if n <= 3 then 1 else 1 + Groups(n - 3)
  }

  lemma GroupsRoundUp(n: nat)
    ensures Groups(n) == (n + 2) / 3
  {
  }

  /** Four characters for every three bytes or part of them. */
  lemma {:induction false} EncodeLength(x: Bytes)
    ensures |Encode(x)| == 4 * ((|x| + 2) / 3)
    decreases |x|
  {
    GroupsRoundUp(|x|);
    if |x| <= 3 {
    } else {
      EncodeLength(x[3..]);
      GroupsRoundUp(|x| - 3);
    }
  }

  /** The encoding of the input from position `i`. */
  function EncodeRest(input: Bytes, i: nat): Bytes {
    if i < |input| then Encode(input[i..]) else []
  }

  /** The characters of the three bytes at position `i`, of which the last ones may be missing. */
  function QuadAt(input: Bytes, i: nat): (s: Bytes)
    requires i < |input|
    ensures |s| == 4
  {
    var b1 := if i + 1 < |input| then input[i + 1] else 0;
    var b2 := if i + 2 < |input| then input[i + 2] else 0;
    Quad(input[i], b1, b2, |input| - i)
  }

  lemma HeadAt(input: Bytes, i: nat)
    requires i < |input|
    ensures EncodeRest(input, i) == QuadAt(input, i) + EncodeRest(input, i + 3)
  {
    assert EncodeHead(input[i..]) == QuadAt(input, i);
    if i + 3 < |input| {
      assert input[i..][3..] == input[i + 3..];
    }
  }

  /** One more group of characters. */
  lemma OneMoreGroup(input: Bytes, i: nat, output: Bytes)
    requires i < |input| && output + EncodeRest(input, i) == Encode(input)
    ensures output + QuadAt(input, i) + EncodeRest(input, i + 3) == Encode(input)
  {
    HeadAt(input, i);
    Associative(output, QuadAt(input, i), EncodeRest(input, i + 3));
  }

  method SimpleBase64Encode(input: Bytes) returns (output: Bytes)
    ensures output == Encode(input)
  {
    output := [];
    var i := 0;
    while i < |input|
      invariant 0 <= i
      invariant output + EncodeRest(input, i) == Encode(input)
      decreases |input| - i
    {
      var b0 := input[i];
      var b1 := if i + 1 < |input| then input[i + 1] else 0;
      var b2 := if i + 2 < |input| then input[i + 2] else 0;
      OneMoreGroup(input, i, output);
      output := output + Quad(b0, b1, b2, |input| - i);
      i := i + 3;
    }
  }

  // ---------------------------------------------------------------- decoder

  function Position(b: byte, from: nat): (r: Option<Sextet>)
    requires from <= 64
    ensures r.Some? ==> Symbol(r.value) == b
    ensures r.None? ==> forall v: Sextet :: from <= v ==> Symbol(v) != b
    decreases 64 - from
  {
    if from == 64 then None else if Symbol(from) == b then Some(from) else Position(b, from + 1)
  }

  /** `bits` bits are waiting in the accumulator. */
  predicate Accumulator(buf: nat, bits: nat) {
    (bits == 0 && buf < 1) || (bits == 2 && buf < 4) || (bits == 4 && buf < 16) || (bits == 6 && buf < 64)
  }

  datatype Fed = Fed(out: Bytes, buf: nat, bits: nat)

  /** One character's effect on the accumulator, which never holds more than twelve bits. */
  function Feed(buf: nat, bits: nat, v: Sextet): (f: Fed)
    requires Accumulator(buf, bits)
    ensures buf * 64 + v < 0x1000
    ensures Accumulator(f.buf, f.bits) && |f.out| <= 1
  {
    var b := buf * 64 + v;
    if bits == 0 then Fed([], b, 6)
    else if bits == 2 then Fed([b], 0, 0)
    else if bits == 4 then Fed([b / 4], b % 4, 2)
    else Fed([b / 16], b % 16, 4)
  }

  datatype DecodeError = InvalidCharacter

  function Prepend(out: Bytes, r: Result<Bytes, DecodeError>): Result<Bytes, DecodeError> {
    match r case Ok(rest) => Ok(out + rest) case Err(e) => Err(e)
  }

  function DecodeFrom(s: Bytes, buf: nat, bits: nat): Result<Bytes, DecodeError>
    requires Accumulator(buf, bits)
    decreases |s|
  {
    if s == [] || s[0] == PAD then Ok([])
    else
      match Position(s[0], 0)
      case None => Err(InvalidCharacter)
      case Some(v) =>
        var f := Feed(buf, bits, v);
        Prepend(f.out, DecodeFrom(s[1..], f.buf, f.bits))
  }

  lemma PrependNothing(r: Result<Bytes, DecodeError>)
    ensures Prepend([], r) == r
  {
    if r.Ok? {
      assert [] + r.value == r.value;
    }
  }

  lemma PrependTwice(a: Bytes, b: Bytes, r: Result<Bytes, DecodeError>)
    ensures Prepend(a, Prepend(b, r)) == Prepend(a + b, r)
  {
    if r.Ok? {
      assert a + (b + r.value) == (a + b) + r.value;
    }
  }

  /** The decoding loop over any text. */
  method Base64DecodeBytes(input: Bytes) returns (r: Result<Bytes, DecodeError>)
    ensures r == DecodeFrom(input, 0, 0)
  {
    var output: Bytes := [];
    var buf: nat, bits: nat := 0, 0;
    var i := 0;
    assert input[0..] == input;
    PrependNothing(DecodeFrom(input, 0, 0));
    while i < |input| && input[i] != PAD
      invariant 0 <= i <= |input| && Accumulator(buf, bits)
      invariant DecodeFrom(input, 0, 0) == Prepend(output, DecodeFrom(input[i..], buf, bits))
    {
      assert input[i..][1..] == input[i + 1..];
      var v := Position(input[i], 0);
      if v.None? {
        return Err(InvalidCharacter);
      }
      var f := Feed(buf, bits, v.value);
      PrependTwice(output, f.out, DecodeFrom(input[i + 1..], f.buf, f.bits));
      output, buf, bits := output + f.out, f.buf, f.bits;
      i := i + 1;
    }
    r := Ok(output);
    assert output + [] == output;
  }

  /** How many characters stand before the padding. */
  function Plain(s: Bytes): (n: nat)
    ensures n <= |s|
  {
    if s == [] || s[0] == PAD then 0 else 1 + Plain(s[1..])
  }

  predicate InAlphabet(b: byte) {
    || 0x41 <= b <= 0x5A || 0x61 <= b <= 0x7A || 0x30 <= b <= 0x39 || b == 0x2B || b == 0x2F
  }

  lemma InAlphabetIsSymbol(b: byte)
    ensures InAlphabet(b) <==> Position(b, 0).Some?
  {
    if InAlphabet(b) {
      var v: Sextet := if 0x41 <= b <= 0x5A then b - 0x41 else if 0x61 <= b <= 0x7A then b - 0x61 + 26
                       else if 0x30 <= b <= 0x39 then b - 0x30 + 52 else if b == 0x2B then 62 else 63;
      assert Symbol(v) == b;
    }
  }

  /** Decoding fails exactly if a character before the padding is none of A-Z, a-z, 0-9, plus and slash; otherwise it
      yields a byte for every eight bits of those characters. */
  lemma {:induction false} DecodesExactly(s: Bytes, buf: nat, bits: nat)
    requires Accumulator(buf, bits)
    ensures DecodeFrom(s, buf, bits).Ok? <==> forall b :: b in s[..Plain(s)] ==> InAlphabet(b)
    ensures DecodeFrom(s, buf, bits).Ok? ==> |DecodeFrom(s, buf, bits).value| == (bits + 6 * Plain(s)) / 8
    decreases |s|
  {
    if s == [] || s[0] == PAD {
    } else {
      InAlphabetIsSymbol(s[0]);
      assert s[..Plain(s)] == [s[0]] + s[1..][..Plain(s[1..])];
      if Position(s[0], 0).Some? {
        var f := Feed(buf, bits, Position(s[0], 0).value);
        DecodesExactly(s[1..], f.buf, f.bits);
      }
    }
  }

  // ---------------------------------------------------------------- round trip

  lemma PositionOfSymbol(v: Sextet)
    ensures Position(Symbol(v), 0) == Some(v)
  {
    var r := Position(Symbol(v), 0);
    assert Symbol(r.value) == Symbol(v);
  }

  lemma DecodeOne(v: Sextet, s: Bytes, buf: nat, bits: nat)
    requires Accumulator(buf, bits)
    ensures var f := Feed(buf, bits, v);
      DecodeFrom([Symbol(v)] + s, buf, bits) == Prepend(f.out, DecodeFrom(s, f.buf, f.bits))
  {
    PositionOfSymbol(v);
    assert ([Symbol(v)] + s)[1..] == s;
  }

  lemma Quotient1000(b0: byte, b1: byte, b2: byte)
    ensures Triple(b0, b1, b2) / 0x1000 == b0 as int * 16 + b1 / 16
  {
    assert Triple(b0, b1, b2) == (b0 as int * 16 + b1 / 16) * 0x1000 + (b1 % 16 * 0x100 + b2);
  }

  lemma Quotient64(b0: byte, b1: byte, b2: byte)
    ensures Triple(b0, b1, b2) / 64 == b0 as int * 1024 + b1 as int * 4 + b2 / 64
  {
    assert Triple(b0, b1, b2) == (b0 as int * 1024 + b1 as int * 4 + b2 / 64) * 64 + b2 % 64;
  }

  lemma Remainder64(q: int, r: int)
    requires 0 <= r < 64
    ensures (q * 64 + r) % 64 == r
  {
  }

  lemma SecondSextet(b0: byte, b1: byte)
    ensures (b0 as int * 16 + b1 / 16) % 64 == b0 % 4 * 16 + b1 / 16
  {
    assert b0 as int == b0 / 4 * 4 + b0 % 4;
    Remainder64(b0 / 4, b0 % 4 * 16 + b1 / 16);
  }

  lemma ThirdSextet(b0: byte, b1: byte, b2: byte)
    ensures (b0 as int * 1024 + b1 as int * 4 + b2 / 64) % 64 == b1 % 16 * 4 + b2 / 64
  {
    assert b1 as int == b1 / 16 * 16 + b1 % 16;
    Remainder64(b0 as int * 16 + b1 / 16, b1 % 16 * 4 + b2 / 64);
  }

  /** The four sextets of three bytes. */
  lemma Sextets(b0: byte, b1: byte, b2: byte)
    ensures Triple(b0, b1, b2) / 0x4_0000 % 64 == b0 / 4
    ensures Triple(b0, b1, b2) / 0x1000 % 64 == b0 % 4 * 16 + b1 / 16
    ensures Triple(b0, b1, b2) / 64 % 64 == b1 % 16 * 4 + b2 / 64
    ensures Triple(b0, b1, b2) % 64 == b2 % 64
  {
    Quotient1000(b0, b1, b2);
    Quotient64(b0, b1, b2);
    SecondSextet(b0, b1);
    ThirdSextet(b0, b1, b2);
  }

  /** The state of the decoder along the four sextets of three bytes: it emits those bytes. */
  lemma FeedSextets(b0: byte, b1: byte, b2: byte)
    ensures Feed(0, 0, b0 / 4) == Fed([], b0 / 4, 6)
    ensures Feed(b0 / 4, 6, b0 % 4 * 16 + b1 / 16) == Fed([b0], b1 / 16, 4)
    ensures Feed(b1 / 16, 4, b1 % 16 * 4 + b2 / 64) == Fed([b1], b2 / 64, 2)
    ensures Feed(b2 / 64, 2, b2 % 64) == Fed([b2], 0, 0)
  {
  }

  lemma DecodeTriple(b0: byte, b1: byte, b2: byte, s: Bytes)
    ensures var t3 := [Symbol(b2 % 64)] + s;
      var t2 := [Symbol(b1 % 16 * 4 + b2 / 64)] + t3;
      DecodeFrom([Symbol(b0 / 4)] + ([Symbol(b0 % 4 * 16 + b1 / 16)] + t2), 0, 0)
      == Prepend([b0, b1, b2], DecodeFrom(s, 0, 0))
  {
    FeedSextets(b0, b1, b2);
    var t3 := [Symbol(b2 % 64)] + s;
    var t2 := [Symbol(b1 % 16 * 4 + b2 / 64)] + t3;
    var t1 := [Symbol(b0 % 4 * 16 + b1 / 16)] + t2;
    DecodeOne(b2 % 64, s, b2 / 64, 2);
    DecodeOne(b1 % 16 * 4 + b2 / 64, t3, b1 / 16, 4);
    DecodeOne(b0 % 4 * 16 + b1 / 16, t2, b0 / 4, 6);
    DecodeOne(b0 / 4, t1, 0, 0);
    var r := DecodeFrom(s, 0, 0);
    PrependTwice([b1], [b2], r);
    PrependTwice([b0], [b1] + [b2], r);
    PrependNothing(Prepend([b0] + ([b1] + [b2]), r));
    assert [b0] + ([b1] + [b2]) == [b0, b1, b2];
  }

  /** A final group of one or two bytes: decoding stops at the padding. */
  lemma DecodeOneByte(b0: byte, s: Bytes)
    requires s != [] && s[0] == PAD
    ensures DecodeFrom([Symbol(b0 / 4)] + ([Symbol(b0 % 4 * 16)] + s), 0, 0) == Ok([b0])
  {
    FeedSextets(b0, 0, 0);
    DecodeOne(b0 % 4 * 16, s, b0 / 4, 6);
    DecodeOne(b0 / 4, [Symbol(b0 % 4 * 16)] + s, 0, 0);
    assert [b0] + [] == [b0];
    PrependNothing(Ok([b0]));
  }

  lemma DecodeTwoBytes(b0: byte, b1: byte, s: Bytes)
    requires s != [] && s[0] == PAD
    ensures var t2 := [Symbol(b1 % 16 * 4)] + s;
      DecodeFrom([Symbol(b0 / 4)] + ([Symbol(b0 % 4 * 16 + b1 / 16)] + t2), 0, 0) == Ok([b0, b1])
  {
    FeedSextets(b0, b1, 0);
    var t2 := [Symbol(b1 % 16 * 4)] + s;
    DecodeOne(b1 % 16 * 4, s, b1 / 16, 4);
    DecodeOne(b0 % 4 * 16 + b1 / 16, t2, b0 / 4, 6);
    DecodeOne(b0 / 4, [Symbol(b0 % 4 * 16 + b1 / 16)] + t2, 0, 0);
    assert [b0] + ([b1] + []) == [b0, b1];
    PrependNothing(Ok([b0, b1]));
  }

  lemma DecodeTail(x: Bytes)
    requires 1 <= |x| <= 2
    ensures DecodeFrom(EncodeHead(x), 0, 0) == Ok(x)
  {
    if |x| == 1 {
      Sextets(x[0], 0, 0);
      DecodeOneByte(x[0], [PAD, PAD]);
      assert EncodeHead(x) == [Symbol(x[0] / 4)] + ([Symbol(x[0] % 4 * 16)] + [PAD, PAD]);
      assert x == [x[0]];
    } else {
      Sextets(x[0], x[1], 0);
      DecodeTwoBytes(x[0], x[1], [PAD]);
      assert EncodeHead(x)
          == [Symbol(x[0] / 4)] + ([Symbol(x[0] % 4 * 16 + x[1] / 16)] + ([Symbol(x[1] % 16 * 4)] + [PAD]));
      assert x == [x[0], x[1]];
    }
  }

  lemma Regroup(c0: byte, c1: byte, c2: byte, c3: byte, s: Bytes)
    ensures [c0, c1, c2, c3] + s == [c0] + ([c1] + ([c2] + ([c3] + s)))
  {
  }

  /** The four characters of three bytes, sextet by sextet. */
  lemma QuadSymbols(b0: byte, b1: byte, b2: byte, available: nat)
    requires available > 2
    ensures Quad(b0, b1, b2, available)
         == [Symbol(b0 / 4), Symbol(b0 % 4 * 16 + b1 / 16), Symbol(b1 % 16 * 4 + b2 / 64), Symbol(b2 % 64)]
  {
    Sextets(b0, b1, b2);
  }

  lemma DecodeHead(x: Bytes, s: Bytes)
    requires |x| >= 3
    ensures DecodeFrom(EncodeHead(x) + s, 0, 0) == Prepend([x[0], x[1], x[2]], DecodeFrom(s, 0, 0))
  {
    var b0, b1, b2 := x[0], x[1], x[2];
    QuadSymbols(b0, b1, b2, |x|);
    Regroup(Symbol(b0 / 4), Symbol(b0 % 4 * 16 + b1 / 16), Symbol(b1 % 16 * 4 + b2 / 64), Symbol(b2 % 64), s);
    DecodeTriple(b0, b1, b2, s);
  }

  /** Base64 round trip across the two files: decoding an encoding returns the original bytes, for every input. */
  lemma {:induction false} RoundTrip(x: Bytes)
    ensures DecodeFrom(Encode(x), 0, 0) == Ok(x)
    decreases |x|
  {
    if x == [] {
    } else if |x| <= 2 {
      DecodeTail(x);
      assert Encode(x) == EncodeHead(x);
    } else {
      var s := if |x| == 3 then [] else Encode(x[3..]);
      if |x| > 3 {
        RoundTrip(x[3..]);
      }
      DecodeHead(x, s);
      assert x == [x[0], x[1], x[2]] + x[3..];
    }
  }

  lemma EncodeInjective(x: Bytes, y: Bytes)
    requires Encode(x) == Encode(y)
    ensures x == y
  {
    RoundTrip(x);
    RoundTrip(y);
  }

  /** A number of 24 bits and its four digits in base 64. */
  lemma Digits64(t: nat)
    requires t < 0x100_0000
    ensures t / 0x4_0000 % 64 * 0x4_0000 + t / 0x1000 % 64 * 0x1000 + t / 64 % 64 * 64 + t % 64 == t
  {
    assert t / 64 / 64 == t / 0x1000 && t / 64 / 64 / 64 == t / 0x4_0000;
    assert t == t / 64 * 64 + t % 64;
    assert t / 64 == t / 64 / 64 * 64 + t / 64 % 64;
    assert t / 64 / 64 == t / 64 / 64 / 64 * 64 + t / 64 / 64 % 64;
  }

  /** The meaning of a group: four characters whose values, as digits in base 64, make up the three bytes as digits in
      base 256; where a byte is missing, and so zero, the character is padding. */
  lemma GroupMeaning(b0: byte, b1: byte, b2: byte, available: nat)
    returns (v0: Sextet, v1: Sextet, v2: Sextet, v3: Sextet)
    ensures v0 * 0x4_0000 + v1 * 0x1000 + v2 * 64 + v3 == b0 as int * 0x1_0000 + b1 as int * 0x100 + b2 as int
    ensures Quad(b0, b1, b2, available)
         == [Symbol(v0), Symbol(v1),
             if available >= 2 then Symbol(v2) else 61, if available >= 3 then Symbol(v3) else 61]
  {
    var t := Triple(b0, b1, b2);
    v0, v1, v2, v3 := t / 0x4_0000 % 64, t / 0x1000 % 64, t / 64 % 64, t % 64;
    Digits64(t);
  }

  lemma EncodeGroup(b0: byte, b1: byte, b2: byte, rest: Bytes)
    ensures Encode([b0, b1, b2] + rest) == EncodeHead([b0, b1, b2]) + Encode(rest)
  {
    var x := [b0, b1, b2] + rest;
    assert x[0] == b0 && x[1] == b1 && x[2] == b2;
    assert EncodeHead(x) == EncodeHead([b0, b1, b2]);
    if rest == [] {
      assert x == [b0, b1, b2];
    } else {
      assert x[3..] == rest;
    }
  }

  lemma HeadIs(b0: byte, b1: byte, b2: byte, c: Bytes)
    requires c == [Symbol(b0 / 4), Symbol(b0 % 4 * 16 + b1 / 16), Symbol(b1 % 16 * 4 + b2 / 64), Symbol(b2 % 64)]
    ensures EncodeHead([b0, b1, b2]) == c
  {
    QuadSymbols(b0, b1, b2, 3);
  }

  /** "Man" encodes to "TWFu", "Ma" to "TWE=" and "M" to "TQ==". */
  lemma EncodedMan()
    ensures Encode([77, 97, 110]) == [84, 87, 70, 117]
    ensures Encode([77, 97]) == [84, 87, 69, 61]
    ensures Encode([77]) == [84, 81, 61, 61]
  {
    HeadIs(77, 97, 110, [84, 87, 70, 117]);
    Sextets(77, 97, 0);
    Sextets(77, 0, 0);
  }

  /** "user:pass" encodes to "dXNlcjpwYXNz". */
  lemma EncodedUserPass()
    ensures Encode([117, 115, 101, 114, 58, 112, 97, 115, 115])
         == [100, 88, 78, 108, 99, 106, 112, 119, 89, 88, 78, 122]
  {
    HeadIs(117, 115, 101, [100, 88, 78, 108]);
    HeadIs(114, 58, 112, [99, 106, 112, 119]);
    HeadIs(97, 115, 115, [89, 88, 78, 122]);
    var third: Bytes := [97, 115, 115];
    EncodeGroup(114, 58, 112, third);
    EncodeGroup(117, 115, 101, [114, 58, 112] + third);
    assert [117, 115, 101] + ([114, 58, 112] + third) == [117, 115, 101, 114, 58, 112, 97, 115, 115];
  }

  // ---------------------------------------------------------------- Basic authentication

  const AUTHORIZATION: Bytes := [0x41, 0x75, 0x74, 0x68, 0x6F, 0x72, 0x69, 0x7A, 0x61, 0x74, 0x69, 0x6F, 0x6E]
  const BASIC: Bytes := [0x42, 0x61, 0x73, 0x69, 0x63, 0x20]

  /** `c` is one character with the White_Space property, encoded in UTF-8: what `str::trim` removes. */
  predicate IsSpace(c: Bytes) {
    || (|c| == 1 && (c[0] == 0x20 || 0x09 <= c[0] <= 0x0D))
    || (|c| == 2 && c[0] == 0xC2 && (c[1] == 0x85 || c[1] == 0xA0))
    || (|c| == 3 && c[0] == 0xE1 && c[1] == 0x9A && c[2] == 0x80)
    || (|c| == 3 && c[0] == 0xE2 && c[1] == 0x80 && (0x80 <= c[2] <= 0x8A || 0xA8 <= c[2] <= 0xA9 || c[2] == 0xAF))
    || (|c| == 3 && c[0] == 0xE2 && c[1] == 0x81 && c[2] == 0x9F)
    || (|c| == 3 && c[0] == 0xE3 && c[1] == 0x80 && c[2] == 0x80)
  }

  function TrimStart(s: Bytes): Bytes {
    if |s| >= 1 && IsSpace(s[..1]) then TrimStart(s[1..])
    else if |s| >= 2 && IsSpace(s[..2]) then TrimStart(s[2..])
    else if |s| >= 3 && IsSpace(s[..3]) then TrimStart(s[3..])
    else s
  }

  function TrimEnd(s: Bytes): Bytes {
    if |s| >= 1 && IsSpace(s[|s| - 1..]) then TrimEnd(s[..|s| - 1])
    else if |s| >= 2 && IsSpace(s[|s| - 2..]) then TrimEnd(s[..|s| - 2])
    else if |s| >= 3 && IsSpace(s[|s| - 3..]) then TrimEnd(s[..|s| - 3])
    else s
  }

  /** Printable ASCII: no byte of a white-space character is one of these. */
  predicate IsGraphic(b: byte) { 0x21 <= b < 0x7F }

  lemma NothingToTrim(s: Bytes)
    requires forall b :: b in s ==> IsGraphic(b)
    ensures TrimStart(s) == s && TrimEnd(s) == s
  {
    if s != [] {
      assert IsGraphic(s[0]) && IsGraphic(s[|s| - 1]);
    }
  }

  /** The code points with the White_Space property. */
  predicate WhiteSpace(cp: int) {
    || 0x09 <= cp <= 0x0D || cp == 0x20 || cp == 0x85 || cp == 0xA0 || cp == 0x1680 || 0x2000 <= cp <= 0x200A
    || cp == 0x2028 || cp == 0x2029 || cp == 0x202F || cp == 0x205F || cp == 0x3000
  }

  lemma SpaceIsWhiteSpace(cp: int)
    requires IsScalar(cp)
    ensures IsSpace(EncodeScalar(cp)) <==> WhiteSpace(cp)
  {
  }

  /** White space at the start is removed character by character, up to the first character that is not. */
  lemma TrimStartExactly(cp: int, rest: Bytes)
    requires IsScalar(cp)
    ensures TrimStart(EncodeScalar(cp) + rest) == if WhiteSpace(cp) then TrimStart(rest) else EncodeScalar(cp) + rest
  {
    var b := EncodeScalar(cp);
    var s := b + rest;
    SpaceIsWhiteSpace(cp);
    assert s[..|b|] == b && s[|b|..] == rest && s[0] == b[0];
  }

  /** No suffix of another length than the last character's is white space. */
  lemma SuffixIsNoSpace(cp: int, init: Bytes, k: nat)
    requires IsScalar(cp) && 1 <= k <= 3 && k != |EncodeScalar(cp)| && k <= |init + EncodeScalar(cp)|
    ensures var s := init + EncodeScalar(cp); !IsSpace(s[|s| - k..])
  {
    var b := EncodeScalar(cp);
    var s := init + b;
    var last := s[|s| - k..];
    assert last[k - 1] == b[|b| - 1];
    if |b| > k {
      assert last[0] == b[|b| - k];
    } else if |b| == 2 {
      assert last[1] == b[0];
    }
  }

  /** White space at the end is removed character by character, back to the last character that is not. */
  lemma TrimEndExactly(cp: int, init: Bytes)
    requires IsScalar(cp)
    ensures TrimEnd(init + EncodeScalar(cp)) == if WhiteSpace(cp) then TrimEnd(init) else init + EncodeScalar(cp)
  {
    var s, n := init + EncodeScalar(cp), |EncodeScalar(cp)|;
    SpaceIsWhiteSpace(cp);
    assert s[|s| - n..] == EncodeScalar(cp) && s[..|s| - n] == init;
    if n != 1 {
      SuffixIsNoSpace(cp, init, 1);
    }
    if n != 2 && |s| >= 2 {
      SuffixIsNoSpace(cp, init, 2);
    }
    if n != 3 && |s| >= 3 {
      SuffixIsNoSpace(cp, init, 3);
    }
  }

  datatype HttpHeader = HttpHeader(name: Bytes, value: Bytes)

  /** The credentials a header carries, if it is a usable Basic authorization. */
  function Credentials(h: HttpHeader): Option<Bytes> {
    if EqIgnoreAsciiCase(h.name, AUTHORIZATION) && BASIC <= h.value then
      match DecodeFrom(TrimEnd(TrimStart(h.value[|BASIC|..])), 0, 0)
      case Ok(c) => if ValidUtf8(c) then Some(c) else None
      case Err(_) => None
    else None
  }

  /** A header carries credentials exactly if it is an Authorization header, in whatever case, of the scheme "Basic " in
      that very spelling, whose rest without surrounding white space decodes to text. */
  lemma CredentialsExactly(h: HttpHeader, c: Bytes)
    ensures Credentials(h) == Some(c) <==>
      && SameText(h.name, [65, 117, 116, 104, 111, 114, 105, 122, 97, 116, 105, 111, 110])
      && |h.value| >= 6 && h.value[..6] == [66, 97, 115, 105, 99, 32]
      && DecodeFrom(TrimEnd(TrimStart(h.value[6..])), 0, 0) == Ok(c) && IsText(c)
  {
    IgnoringCaseIsSameText(h.name, AUTHORIZATION);
    ValidExactlyIfText(c);
    assert |h.value| >= 6 ==> (h.value[..6] == BASIC <==> BASIC <= h.value);
  }

  /** The first usable header decides. */
  method ValidateBasicAuth(headers: seq<HttpHeader>, user: Bytes, password: Bytes) returns (ok: bool)
    ensures ok <==> exists k :: 0 <= k < |headers| && Credentials(headers[k]) == Some(user + [COLON] + password)
                      && forall i :: 0 <= i < k ==> Credentials(headers[i]) == None
  {
    for k := 0 to |headers|
      invariant forall i :: 0 <= i < k ==> Credentials(headers[i]) == None
    {
      var c := Credentials(headers[k]);
      if c.Some? {
        return c.value == user + [COLON] + password;
      }
    }
    ok := false;
  }

  lemma EncodingIsGraphic(x: Bytes)
    ensures forall b :: b in Encode(x) ==> IsGraphic(b)
    decreases |x|
  {
    if |x| <= 3 {
    } else {
      EncodingIsGraphic(x[3..]);
    }
  }

  /** A header made by the encoder carries exactly the credentials that went in. */
  lemma CredentialsRoundTrip(name: Bytes, c: Bytes)
    requires EqIgnoreAsciiCase(name, AUTHORIZATION) && ValidUtf8(c)
    ensures Credentials(HttpHeader(name, BASIC + Encode(c))) == Some(c)
  {
    var value := BASIC + Encode(c);
    EncodingIsGraphic(c);
    NothingToTrim(Encode(c));
    RoundTrip(c);
    assert value[|BASIC|..] == Encode(c);
  }

  /** The header "authorization: Basic dXNlcjpwYXNz" carries "user:pass". */
  lemma UserPassAccepted(name: Bytes, value: Bytes)
    requires name == [97, 117, 116, 104, 111, 114, 105, 122, 97, 116, 105, 111, 110]
    requires value == [66, 97, 115, 105, 99, 32] + [100, 88, 78, 108, 99, 106, 112, 119, 89, 88, 78, 122]
    ensures Credentials(HttpHeader(name, value)) == Some([117, 115, 101, 114, 58, 112, 97, 115, 115])
  {
    var text: Bytes := [117, 115, 101, 114, 58, 112, 97, 115, 115];
    EncodedUserPass();
    AsciiIsValid(text);
    AuthorizationSpelled(name);
    CredentialsRoundTrip(name, text);
  }

  lemma AuthorizationSpelled(name: Bytes)
    requires name == [97, 117, 116, 104, 111, 114, 105, 122, 97, 116, 105, 111, 110]
    ensures EqIgnoreAsciiCase(name, AUTHORIZATION)
  {
  }

  lemma {:induction false} AsciiIsValid(s: Bytes)
    requires forall i :: 0 <= i < |s| ==> s[i] < 0x80
    ensures ValidUtf8(s)
  {
    if s == [] {
    } else {
      AsciiIsValid(s[1..]);
    }
  }
}
