/** Well-formed UTF-8, as in table 3-7 of the Unicode standard: what `String::from_utf8` accepts. */
module Utf8 {
  import opened Basics

  predicate Continues(s: Bytes, i: nat, n: nat) {
    i + n <= |s| && forall k :: i <= k < i + n ==> 0x80 <= s[k] < 0xC0
  }

  /** Length of the character at the head of `s`, or 0 when it is ill-formed. */
  function HeadLength(s: Bytes): (n: nat)
    requires s != []
    ensures n <= |s|
  {
    var b := s[0];
    if b < 0x80 then 1
    else if 0xC2 <= b < 0xE0 && Continues(s, 1, 1) then 2
    else if 0xE0 <= b < 0xF0 && Continues(s, 1, 2) && (b == 0xE0 ==> s[1] >= 0xA0) && (b == 0xED ==> s[1] < 0xA0) then 3
    else if 0xF0 <= b < 0xF5 && Continues(s, 1, 3) && (b == 0xF0 ==> s[1] >= 0x90) && (b == 0xF4 ==> s[1] < 0x90) then 4
    else 0
  }

  predicate ValidUtf8(s: Bytes)
    decreases |s|
  {
    s == [] || (HeadLength(s) > 0 && ValidUtf8(s[HeadLength(s)..]))
  }

  // ---------------------------------------------------------------- the encoding form

  /** A Unicode scalar value: a code point that is not a surrogate. */
  predicate IsScalar(cp: int) {
    0 <= cp < 0xD800 || 0xE000 <= cp < 0x11_0000
  }

  /** UTF-8, table 3-6 of the Unicode standard. */
  function EncodeScalar(cp: int): (b: Bytes)
    requires IsScalar(cp)
    ensures 1 <= |b| <= 4
  {
    if cp < 0x80 then [cp]
    else if cp < 0x800 then [0xC0 + cp / 64, 0x80 + cp % 64]
    else if cp < 0x1_0000 then [0xE0 + cp / 4096, 0x80 + cp / 64 % 64, 0x80 + cp % 64]
    else [0xF0 + cp / 0x4_0000, 0x80 + cp / 4096 % 64, 0x80 + cp / 64 % 64, 0x80 + cp % 64]
  }

  ghost predicate AllScalars(cps: seq<int>) {
    forall cp :: cp in cps ==> IsScalar(cp)
  }

  ghost function EncodeText(cps: seq<int>): Bytes
    requires AllScalars(cps)
  {
    if cps == [] then [] else EncodeScalar(cps[0]) + EncodeText(cps[1..])
  }

  lemma HeadOfScalar(cp: int, rest: Bytes)
    requires IsScalar(cp)
    ensures HeadLength(EncodeScalar(cp) + rest) == |EncodeScalar(cp)|
  {
    var b := EncodeScalar(cp);
    var s := b + rest;
    assert forall i :: 0 <= i < |b| ==> s[i] == b[i];
  }

  /** The scalar value of a well-formed sequence of two, three or four bytes. */
  lemma TwoBytes(s: Bytes)
    requires |s| == 2 && HeadLength(s) == 2
    ensures var cp := (s[0] as int - 0xC0) * 64 + (s[1] as int - 0x80); IsScalar(cp) && EncodeScalar(cp) == s
  {
  }

  lemma ThreeBytes(s: Bytes)
    requires |s| == 3 && HeadLength(s) == 3
    ensures var cp := (s[0] as int - 0xE0) * 4096 + (s[1] as int - 0x80) * 64 + (s[2] as int - 0x80);
      IsScalar(cp) && EncodeScalar(cp) == s
  {
    var x, y, z := s[0] as int - 0xE0, s[1] as int - 0x80, s[2] as int - 0x80;
    var cp := x * 4096 + y * 64 + z;
    assert cp / 4096 == x && cp / 64 == x * 64 + y && cp % 64 == z;
  }

  lemma FourBytes(s: Bytes)
    requires |s| == 4 && HeadLength(s) == 4
    ensures var cp := (s[0] as int - 0xF0) * 0x4_0000 + (s[1] as int - 0x80) * 4096 + (s[2] as int - 0x80) * 64
                      + (s[3] as int - 0x80);
      IsScalar(cp) && EncodeScalar(cp) == s
  {
    var w, x, y, z := s[0] as int - 0xF0, s[1] as int - 0x80, s[2] as int - 0x80, s[3] as int - 0x80;
    var cp := w * 0x4_0000 + x * 4096 + y * 64 + z;
    assert cp / 0x4_0000 == w && cp / 4096 == w * 64 + x && cp / 64 == w * 4096 + x * 64 + y && cp % 64 == z;
  }

  lemma HeadIsLocal(s: Bytes)
    requires s != [] && HeadLength(s) > 0
    ensures HeadLength(s[..HeadLength(s)]) == HeadLength(s)
  {
    var n := HeadLength(s);
    assert forall i :: 0 <= i < n ==> s[..n][i] == s[i];
  }

  lemma HeadIsScalar(s: Bytes) returns (cp: int)
    requires s != [] && HeadLength(s) > 0
    ensures IsScalar(cp) && EncodeScalar(cp) == s[..HeadLength(s)]
  {
    var b := s[..HeadLength(s)];
    HeadIsLocal(s);
    if |b| == 1 {
      cp := b[0];
    } else if |b| == 2 {
      cp := (b[0] as int - 0xC0) * 64 + (b[1] as int - 0x80);
      TwoBytes(b);
    } else if |b| == 3 {
      cp := (b[0] as int - 0xE0) * 4096 + (b[1] as int - 0x80) * 64 + (b[2] as int - 0x80);
      ThreeBytes(b);
    } else {
      cp := (b[0] as int - 0xF0) * 0x4_0000 + (b[1] as int - 0x80) * 4096 + (b[2] as int - 0x80) * 64
            + (b[3] as int - 0x80);
      FourBytes(b);
    }
  }

  lemma {:induction false} EncodedTextIsValid(cps: seq<int>)
    requires AllScalars(cps)
    ensures ValidUtf8(EncodeText(cps))
  {
    if cps == [] {
    } else {
      var b, rest := EncodeScalar(cps[0]), EncodeText(cps[1..]);
      HeadOfScalar(cps[0], rest);
      EncodedTextIsValid(cps[1..]);
      assert (b + rest)[|b|..] == rest;
    }
  }

  lemma {:induction false} ValidTextIsEncoded(s: Bytes) returns (cps: seq<int>)
    requires ValidUtf8(s)
    ensures AllScalars(cps) && EncodeText(cps) == s
    decreases |s|
  {
    if s == [] {
      cps := [];
    } else {
      var cp := HeadIsScalar(s);
      var others := ValidTextIsEncoded(s[HeadLength(s)..]);
      cps := [cp] + others;
      assert cps[1..] == others;
      assert s == s[..HeadLength(s)] + s[HeadLength(s)..];
    }
  }

  ghost predicate IsText(s: Bytes) {
    exists cps :: AllScalars(cps) && EncodeText(cps) == s
  }

  /** A byte string is accepted if and only if it is the UTF-8 encoding of a sequence of scalar values. */
  lemma ValidExactlyIfText(s: Bytes)
    ensures ValidUtf8(s) <==> IsText(s)
  {
    if ValidUtf8(s) {
      var cps := ValidTextIsEncoded(s);
    }
    if IsText(s) {
      var cps :| AllScalars(cps) && EncodeText(cps) == s;
      EncodedTextIsValid(cps);
    }
  }
}
