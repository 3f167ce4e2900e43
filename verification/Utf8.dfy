/** The byte strings that the codec takes for text are exactly the UTF-8 encodings of
    sequences of Unicode scalar values (section 3.9 of the Unicode standard). */
module Utf8 {
  import opened Common
  import opened Sparkplug

  /** Any code point but a surrogate. */
  predicate IsScalar(cp: int) { 0 <= cp < 0xD800 || 0xE000 <= cp < 0x110000 }

  predicate AllScalar(cps: seq<int>) { forall i :: 0 <= i < |cps| ==> IsScalar(cps[i]) }

  function Encode(cp: int): Bytes
    requires IsScalar(cp)
  {
    if cp < 0x80 then [cp]
    else if cp < 0x800 then [0xC0 + cp / 64, 0x80 + cp % 64]
    else if cp < 0x1_0000 then [0xE0 + cp / 4096, 0x80 + cp / 64 % 64, 0x80 + cp % 64]
    else [0xF0 + cp / 262144, 0x80 + cp / 4096 % 64, 0x80 + cp / 64 % 64, 0x80 + cp % 64]
  }

  function EncodeAll(cps: seq<int>): Bytes
    requires AllScalar(cps)
  {
    if cps == [] then [] else Encode(cps[0]) + EncodeAll(cps[1..])
  }

  lemma TwoBytes(cp: int)
    requires 0x80 <= cp < 0x800
    ensures 0xC2 <= 0xC0 + cp / 64 < 0xE0 && Continuation(0x80 + cp % 64)
  {
  }

  lemma ThreeBytes(cp: int)
    requires 0x800 <= cp < 0x1_0000 && IsScalar(cp)
    ensures var a, b := 0xE0 + cp / 4096, 0x80 + cp / 64 % 64;
            && 0xE0 <= a < 0xF0 && Continuation(b) && Continuation(0x80 + cp % 64)
            && (a == 0xE0 ==> b >= 0xA0) && (a == 0xED ==> b < 0xA0)
  {
  }

  lemma FourBytes(cp: int)
    requires 0x1_0000 <= cp < 0x110000
    ensures var a, b := 0xF0 + cp / 262144, 0x80 + cp / 4096 % 64;
            && 0xF0 <= a < 0xF5 && Continuation(b) && Continuation(0x80 + cp / 64 % 64) && Continuation(0x80 + cp % 64)
            && (a == 0xF0 ==> b >= 0x90) && (a == 0xF4 ==> b < 0x90)
  {
  }

  lemma OneValid(cp: int, t: Bytes)
    requires IsScalar(cp)
    ensures ValidUtf8(Encode(cp) + t) == ValidUtf8(t)
  {
    var e := Encode(cp);
    DropLength(e, t);
    if 0x80 <= cp < 0x800 {
      TwoBytes(cp);
    } else if 0x800 <= cp < 0x1_0000 {
      ThreeBytes(cp);
    } else if cp >= 0x1_0000 {
      FourBytes(cp);
    }
    assert forall i :: 0 <= i < |e| ==> (e + t)[i] == e[i];
  }

  lemma {:induction false} EncodedIsValid(cps: seq<int>)
    requires AllScalar(cps)
    ensures ValidUtf8(EncodeAll(cps))
  {
    hide Encode, ValidUtf8;
    if cps == [] {
      NothingValid([]);
    } else {
      EncodedIsValid(cps[1..]);
      OneValid(cps[0], EncodeAll(cps[1..]));
    }
  }

  lemma NothingValid(s: Bytes)
    requires s == []
    ensures ValidUtf8(s)
  {
  }

  /** The code point at the head of valid bytes, and its length. */
  lemma FirstOf(s: Bytes) returns (cp: int, n: nat)
    requires ValidUtf8(s) && s != []
    ensures IsScalar(cp) && 1 <= n <= |s| && Encode(cp) == s[..n] && ValidUtf8(s[n..])
  {
    if s[0] < 0x80 {
      cp, n := s[0], 1;
    } else if s[0] < 0xE0 {
      n := 2;
      cp := FromTwo(s[0], s[1]);
    } else if s[0] < 0xF0 {
      n := 3;
      cp := FromThree(s[0], s[1], s[2]);
    } else {
      n := 4;
      cp := FromFour(s[0], s[1], s[2], s[3]);
    }
  }

  lemma Split(a: int, b: int)
    requires 0 <= b < 64
    ensures (64 * a + b) / 64 == a && (64 * a + b) % 64 == b
  {
  }

  lemma FromTwo(a: Byte, b: Byte) returns (cp: int)
    requires 0xC2 <= a < 0xE0 && Continuation(b)
    ensures IsScalar(cp) && Encode(cp) == [a, b]
  {
    cp := 64 * (a - 0xC0) + (b - 0x80);
    Split(a - 0xC0, b - 0x80);
  }

  lemma FromThree(a: Byte, b: Byte, c: Byte) returns (cp: int)
    requires 0xE0 <= a < 0xF0 && Continuation(b) && Continuation(c)
    requires (a == 0xE0 ==> b >= 0xA0) && (a == 0xED ==> b < 0xA0)
    ensures IsScalar(cp) && Encode(cp) == [a, b, c]
  {
    var high := 64 * (a - 0xE0) + (b - 0x80);
    cp := 64 * high + (c - 0x80);
    Split(a - 0xE0, b - 0x80);
    Split(high, c - 0x80);
    assert cp / 4096 == (cp / 64) / 64;
  }

  lemma FromFour(a: Byte, b: Byte, c: Byte, d: Byte) returns (cp: int)
    requires 0xF0 <= a < 0xF5 && Continuation(b) && Continuation(c) && Continuation(d)
    requires (a == 0xF0 ==> b >= 0x90) && (a == 0xF4 ==> b < 0x90)
    ensures IsScalar(cp) && Encode(cp) == [a, b, c, d]
  {
    var high := 64 * (a - 0xF0) + (b - 0x80);
    var mid := 64 * high + (c - 0x80);
    cp := 64 * mid + (d - 0x80);
    Split(a - 0xF0, b - 0x80);
    Split(high, c - 0x80);
    Split(mid, d - 0x80);
    assert cp / 4096 == (cp / 64) / 64;
    assert cp / 262144 == (cp / 4096) / 64;
  }

  /** Text is what some sequence of code points encodes to, and nothing else. */
  lemma {:induction false} ValidIsEncoded(s: Bytes) returns (cps: seq<int>)
    requires ValidUtf8(s)
    ensures AllScalar(cps) && EncodeAll(cps) == s
    decreases |s|
  {
    hide ValidUtf8, Encode;
    if s == [] {
      cps := [];
    } else {
      var cp, n := FirstOf(s);
      var rest := ValidIsEncoded(s[n..]);
      cps := [cp] + rest;
      ConsRest(cp, rest);
      assert s[..n] + s[n..] == s;
    }
  }

  /** Both together. */
  lemma ValidIffEncoded(s: Bytes)
    ensures ValidUtf8(s) <==> exists cps :: AllScalar(cps) && EncodeAll(cps) == s
  {
    hide ValidUtf8, EncodeAll;
    if ValidUtf8(s) {
      var cps := ValidIsEncoded(s);
    }
    forall cps | AllScalar(cps) && EncodeAll(cps) == s ensures ValidUtf8(s) {
      EncodedIsValid(cps);
    }
  }
}
