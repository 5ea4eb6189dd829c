/** The UTF-8 validator and the strings it accepts. */
module Utf8 {
  import opened Basics

  // ---------------------------------------------------------------- the definition

  /** Shortest form of a code point (RFC 3629, section 3). */
  function Encode(c: nat): Bytes
    requires c <= 0x10FFFF
  {
    if c < 0x80 then [c]
    else if c < 0x800 then [0xC0 + c / 0x40, 0x80 + c % 0x40]
    else if c < 0x10000 then [0xE0 + c / 0x1000, 0x80 + c / 0x40 % 0x40, 0x80 + c % 0x40]
    else [0xF0 + c / 0x40000, 0x80 + c / 0x1000 % 0x40, 0x80 + c / 0x40 % 0x40, 0x80 + c % 0x40]
  }

  predicate Control(c: nat) { c <= 0x1F || 0x7F <= c <= 0x9F }

  predicate Surrogate(c: nat) { 0xD800 <= c <= 0xDFFF }

  predicate NonCharacter(c: nat) {
    0xFDD0 <= c <= 0xFDEF || c % 0x10000 == 0xFFFE || c % 0x10000 == 0xFFFF
  }

  /** The code points a string may hold; NUL is among the control characters. */
  predicate Allowed(c: nat) {
    c <= 0x10FFFF && !Control(c) && !Surrogate(c) && !NonCharacter(c)
  }

  predicate AllAllowed(cs: seq<nat>) { forall i | 0 <= i < |cs| :: Allowed(cs[i]) }

  function EncodeAll(cs: seq<nat>): Bytes
    requires AllAllowed(cs)
  {
    if cs == [] then [] else Encode(cs[0]) + EncodeAll(cs[1..])
  }

  /** The concatenation of shortest forms of allowed code points. */
  ghost predicate IsText(s: Bytes) {
    exists cs :: AllAllowed(cs) && s == EncodeAll(cs)
  }

  // ---------------------------------------------------------------- one character

  /** Number of bytes a first byte announces, and the bits it holds itself. */
  function Lead(b: Byte): Option<(nat, nat)> {
    if b == 0 then None
    else if b <= 0x7F then Some((1, b))
    else if b / 0x20 == 6 then if b == 0xC0 || b == 0xC1 then None else Some((2, b % 0x20))
    else if b / 0x10 == 14 then Some((3, b % 0x10))
    else if b / 8 == 30 then if b > 0xF4 then None else Some((4, b % 8))
    else None
  }

  /** Add n continuation bytes from position i to the code point c. */
  function Continue(s: Bytes, i: nat, n: nat, c: nat): Option<nat>
    requires i + n <= |s|
    decreases n
  {
    if n == 0 then Some(c)
    else if s[i] / 0x40 != 2 then None
    else Continue(s, i + 1, n - 1, c * 0x40 + s[i] % 0x40)
  }

  /** The checks on a code point read from n bytes. */
  predicate Passes(c: nat, n: nat) {
    && !Surrogate(c)
    && (n == 3 ==> c >= 0x800)
    && (n == 4 ==> 0x10000 <= c <= 0x10FFFF)
    && !NonCharacter(c)
    && !Control(c)
  }

  /** The code point at position i and its length, or None if the validator stops there. */
  function CharAt(s: Bytes, i: nat): Option<(nat, nat)>
    requires i < |s|
  {
    match Lead(s[i])
    case None => None
    case Some((n, bits)) =>
      if i + n > |s| then None
      else
        match Continue(s, i + 1, n - 1, bits)
        case None => None
        case Some(c) => if Passes(c, n) then Some((c, n)) else None
  }

  predicate ValidFrom(s: Bytes, i: nat)
    requires i <= |s|
    decreases |s| - i
  {
    i == |s| || (CharAt(s, i).Some? && i + CharAt(s, i).value.1 <= |s| && ValidFrom(s, i + CharAt(s, i).value.1))
  }

  // ---------------------------------------------------------------- the loop

  datatype Verdict = BadArgument | Malformed | Good

  method ReadLead(b: Byte) returns (ok: bool, codelen: nat, codepoint: nat)
    ensures ok <==> Lead(b).Some?
    ensures ok ==> Lead(b) == Some((codelen, codepoint)) && codelen >= 1
  {
    ok, codelen, codepoint := false, 0, 0;
    if b == 0 {
      return;
    } else if b <= 0x7F {
      codelen, codepoint := 1, b;
    } else if b / 0x20 == 6 {
      if b == 0xC0 || b == 0xC1 {
        return;
      }
      codelen, codepoint := 2, b % 0x20;
    } else if b / 0x10 == 14 {
      codelen, codepoint := 3, b % 0x10;
    } else if b / 8 == 30 {
      if b > 0xF4 {
        return;
      }
      codelen, codepoint := 4, b % 8;
    } else {
      return;
    }
    ok := true;
  }

  method CheckCodepoint(codepoint: nat, codelen: nat) returns (ok: bool)
    ensures ok <==> Passes(codepoint, codelen)
  {
    if codepoint >= 0xD800 && codepoint <= 0xDFFF {
      return false;
    }
    if codelen == 3 && codepoint < 0x0800 {
      return false;
    } else if codelen == 4 && (codepoint < 0x10000 || codepoint > 0x10FFFF) {
      return false;
    }
    if codepoint >= 0xFDD0 && codepoint <= 0xFDEF {
      return false;
    }
    if codepoint % 0x10000 == 0xFFFE || codepoint % 0x10000 == 0xFFFF {
      return false;
    }
    if codepoint <= 0x001F || (codepoint >= 0x007F && codepoint <= 0x009F) {
      return false;
    }
    return true;
  }

  /** The inner loop over the n continuation bytes behind position i. */
  method ReadContinuation(s: Bytes, i: nat, n: nat, bits: nat) returns (ok: bool, codepoint: nat)
    requires i + n < |s|
    ensures ok <==> Continue(s, i + 1, n, bits).Some?
    ensures ok ==> Continue(s, i + 1, n, bits) == Some(codepoint)
  {
    codepoint := bits;
    for j := 0 to n
      invariant Continue(s, i + 1, n, bits) == Continue(s, i + 1 + j, n - j, codepoint)
    {
      if s[i + 1 + j] / 0x40 != 2 {
        ok := false;
        return;
      }
      codepoint := codepoint * 0x40 + s[i + 1 + j] % 0x40;
    }
    ok := true;
  }

  /** One turn of the outer loop. */
  method ReadChar(s: Bytes, i: nat) returns (ok: bool, codelen: nat)
    requires i < |s|
    ensures ok <==> CharAt(s, i).Some?
    ensures ok ==> codelen == CharAt(s, i).value.1 && codelen >= 1 && i + codelen <= |s|
  {
    var bits: nat, codepoint: nat;
    ok, codelen, bits := ReadLead(s[i]);
    if !ok {
      return;
    }
    if i >= |s| - codelen + 1 {
      ok := false;
      return;
    }
    ok, codepoint := ReadContinuation(s, i, codelen - 1, bits);
    if !ok {
      return;
    }
    ok := CheckCodepoint(codepoint, codelen);
  }

  method Validate(s: Bytes) returns (v: Verdict)
    ensures v == BadArgument <==> |s| > 65536
    ensures v == Good <==> |s| <= 65536 && ValidFrom(s, 0)
  {
    if |s| > 65536 {
      return BadArgument;
    }
    var i: nat := 0;
    while i < |s|
      invariant i <= |s|
      invariant ValidFrom(s, 0) == ValidFrom(s, i)
    {
      var ok, codelen := ReadChar(s, i);
      if !ok {
        return Malformed;
      }
      i := i + codelen;
    }
    return Good;
  }

  // ---------------------------------------------------------------- characters and code points

  lemma Continue1(s: Bytes, i: nat, c: nat)
    requires i + 1 <= |s|
    ensures Continue(s, i, 1, c) == if s[i] / 0x40 == 2 then Some(c * 0x40 + s[i] % 0x40) else None
  {
    assert s[i] / 0x40 == 2 ==> Continue(s, i + 1, 0, c * 0x40 + s[i] % 0x40) == Some(c * 0x40 + s[i] % 0x40);
  }

  lemma Digit64(x: nat, d: nat)
    requires d < 0x40
    ensures (x * 0x40 + d) / 0x40 == x && (x * 0x40 + d) % 0x40 == d
  {
  }

  lemma Quotients(c: nat)
    ensures c / 0x1000 == c / 0x40 / 0x40 && c / 0x40000 == c / 0x40 / 0x40 / 0x40
  {
  }

  lemma Shortest2(a: nat, b: nat, c: nat)
    requires a / 0x20 == 6 && a >= 0xC2 && b / 0x40 == 2
    requires c == a % 0x20 * 0x40 + b % 0x40
    ensures 0x80 <= c < 0x800 && Encode(c) == [a, b]
  {
    Digit64(a % 0x20, b % 0x40);
  }

  lemma Shortest3(a: nat, b: nat, d: nat, c: nat)
    requires a / 0x10 == 14 && b / 0x40 == 2 && d / 0x40 == 2
    requires c == (a % 0x10 * 0x40 + b % 0x40) * 0x40 + d % 0x40 && c >= 0x800
    ensures c < 0x10000 && Encode(c) == [a, b, d]
  {
    var x := a % 0x10 * 0x40 + b % 0x40;
    Digit64(a % 0x10, b % 0x40);
    Digit64(x, d % 0x40);
    Quotients(c);
    Bytes3(c, a, b, d);
  }

  lemma Bytes3(c: nat, a: nat, b: nat, d: nat)
    requires 0x800 <= c < 0x10000
    requires a == 0xE0 + c / 0x1000 && b == 0x80 + c / 0x40 % 0x40 && d == 0x80 + c % 0x40
    ensures Encode(c) == [a, b, d]
  {
  }

  lemma Shortest4(a: nat, b: nat, d: nat, e: nat, c: nat)
    requires a / 8 == 30 && b / 0x40 == 2 && d / 0x40 == 2 && e / 0x40 == 2
    requires c == ((a % 8 * 0x40 + b % 0x40) * 0x40 + d % 0x40) * 0x40 + e % 0x40
    requires 0x10000 <= c <= 0x10FFFF
    ensures Encode(c) == [a, b, d, e]
  {
    var x := a % 8 * 0x40 + b % 0x40;
    var y := x * 0x40 + d % 0x40;
    Digit64(a % 8, b % 0x40);
    Digit64(x, d % 0x40);
    Digit64(y, e % 0x40);
    Quotients(c);
    Bytes4(c, a, b, d, e);
  }

  lemma Bytes4(c: nat, a: nat, b: nat, d: nat, e: nat)
    requires 0x10000 <= c <= 0x10FFFF
    requires a == 0xF0 + c / 0x40000 && b == 0x80 + c / 0x1000 % 0x40 && d == 0x80 + c / 0x40 % 0x40 && e == 0x80 + c % 0x40
    ensures Encode(c) == [a, b, d, e]
  {
  }

  /** What the validator accepts as a character is the shortest form of an allowed code point. */
  lemma CharIsShortest(s: Bytes, i: nat)
    requires i < |s| && CharAt(s, i).Some?
    ensures
      var (c, n) := CharAt(s, i).value;
      Allowed(c) && i + n <= |s| && s[i..i + n] == Encode(c)
  {
    var (c, n) := CharAt(s, i).value;
    var bits := Lead(s[i]).value.1;
    if n == 2 {
      Continue1(s, i + 1, bits);
      Shortest2(s[i], s[i + 1], c);
      assert s[i..i + n] == [s[i], s[i + 1]];
    } else if n == 3 {
      Continue1(s, i + 2, bits * 0x40 + s[i + 1] % 0x40);
      Shortest3(s[i], s[i + 1], s[i + 2], c);
      assert s[i..i + n] == [s[i], s[i + 1], s[i + 2]];
    } else if n == 4 {
      var c1 := bits * 0x40 + s[i + 1] % 0x40;
      Continue1(s, i + 3, c1 * 0x40 + s[i + 2] % 0x40);
      Shortest4(s[i], s[i + 1], s[i + 2], s[i + 3], c);
      assert s[i..i + n] == [s[i], s[i + 1], s[i + 2], s[i + 3]];
    } else {
      assert s[i..i + n] == [s[i]];
    }
  }

  lemma Reads2(c: nat)
    requires 0x80 <= c < 0x800
    ensures
      var e := Encode(c);
      && Lead(e[0]) == Some((2, c / 0x40))
      && e[1] / 0x40 == 2 && c / 0x40 * 0x40 + e[1] % 0x40 == c
  {
  }

  lemma Reads3(c: nat)
    requires 0x800 <= c < 0x10000
    ensures
      var e := Encode(c);
      && Lead(e[0]) == Some((3, c / 0x1000))
      && e[1] / 0x40 == 2 && c / 0x1000 * 0x40 + e[1] % 0x40 == c / 0x40
      && e[2] / 0x40 == 2 && c / 0x40 * 0x40 + e[2] % 0x40 == c
  {
  }

  lemma Lead4(c: nat)
    requires 0x10000 <= c <= 0x10FFFF
    ensures Lead(Encode(c)[0]) == Some((4, c / 0x40000))
  {
  }

  lemma Reads4(c: nat)
    requires 0x10000 <= c <= 0x10FFFF
    ensures
      var e := Encode(c);
      && e[1] / 0x40 == 2 && c / 0x40000 * 0x40 + e[1] % 0x40 == c / 0x1000
      && e[2] / 0x40 == 2 && c / 0x1000 * 0x40 + e[2] % 0x40 == c / 0x40
      && e[3] / 0x40 == 2 && c / 0x40 * 0x40 + e[3] % 0x40 == c
  {
    var e := Encode(c);
    assert e[1] == 0x80 + c / 0x1000 % 0x40;
    assert e[2] == 0x80 + c / 0x40 % 0x40;
    assert e[3] == 0x80 + c % 0x40;
    Digits(c, 0x40);
    Digits(c / 0x40, 0x40);
    Digits(c / 0x1000, 0x40);
    assert c / 0x40 / 0x40 == c / 0x1000 && c / 0x1000 / 0x40 == c / 0x40000;
  }

  lemma Digits(x: nat, b: nat)
    requires b == 0x40
    ensures x / b * b + x % b == x
    ensures (0x80 + x % b) / b == 2 && (0x80 + x % b) % b == x % b
  {
  }

  lemma Char2(s: Bytes, i: nat, c: nat)
    requires i + 2 <= |s| && Allowed(c) && 0x80 <= c < 0x800
    requires s[i] == Encode(c)[0] && s[i + 1] == Encode(c)[1]
    ensures CharAt(s, i) == Some((c, 2))
  {
    Reads2(c);
    Continue1(s, i + 1, c / 0x40);
  }

  lemma Char3(s: Bytes, i: nat, c: nat)
    requires i + 3 <= |s| && Allowed(c) && 0x800 <= c < 0x10000
    requires s[i] == Encode(c)[0] && s[i + 1] == Encode(c)[1] && s[i + 2] == Encode(c)[2]
    ensures CharAt(s, i) == Some((c, 3))
  {
    Reads3(c);
    Continue1(s, i + 2, c / 0x40);
    assert Continue(s, i + 1, 2, c / 0x1000) == Continue(s, i + 2, 1, c / 0x40);
  }

  lemma Char4(s: Bytes, i: nat, c: nat)
    requires i + 4 <= |s| && Allowed(c) && 0x10000 <= c
    requires s[i] == Encode(c)[0] && s[i + 1] == Encode(c)[1] && s[i + 2] == Encode(c)[2] && s[i + 3] == Encode(c)[3]
    ensures CharAt(s, i) == Some((c, 4))
  {
    Lead4(c);
    Reads4(c);
    Continue1(s, i + 3, c / 0x40);
    assert Continue(s, i + 2, 2, c / 0x1000) == Continue(s, i + 3, 1, c / 0x40);
    assert Continue(s, i + 1, 3, c / 0x40000) == Continue(s, i + 2, 2, c / 0x1000);
  }

  lemma SliceAt(s: Bytes, i: nat, e: Bytes, k: nat)
    requires i + |e| <= |s| && s[i..i + |e|] == e && k < |e|
    ensures s[i + k] == e[k]
  {
    assert s[i + k] == s[i..i + |e|][k];
  }

  /** The shortest form of an allowed code point is accepted as a character. */
  lemma ShortestIsChar(s: Bytes, i: nat, c: nat)
    requires Allowed(c) && i + |Encode(c)| <= |s| && s[i..i + |Encode(c)|] == Encode(c)
    ensures CharAt(s, i) == Some((c, |Encode(c)|))
  {
    var e := Encode(c);
    SliceAt(s, i, e, 0);
    if |e| == 1 {
      assert Continue(s, i + 1, 0, c) == Some(c);
    } else {
      SliceAt(s, i, e, 1);
      if |e| == 2 {
        Char2(s, i, c);
      } else {
        SliceAt(s, i, e, 2);
        if |e| == 3 {
          Char3(s, i, c);
        } else {
          SliceAt(s, i, e, 3);
          Char4(s, i, c);
        }
      }
    }
  }

  // ---------------------------------------------------------------- strings

  lemma EncodeCons(c: nat, rest: seq<nat>)
    requires Allowed(c) && AllAllowed(rest)
    ensures AllAllowed([c] + rest) && EncodeAll([c] + rest) == Encode(c) + EncodeAll(rest)
  {
    assert ([c] + rest)[1..] == rest;
  }

  lemma SliceSplit(s: Bytes, i: nat, k: nat)
    requires i <= k <= |s|
    ensures s[i..] == s[i..k] + s[k..]
  {
  }

  /** A character, and the position behind it. */
  lemma CharText(s: Bytes, i: nat) returns (c: nat, k: nat)
    requires i < |s| && ValidFrom(s, i)
    ensures Allowed(c) && i < k <= |s| && s[i..k] == Encode(c) && ValidFrom(s, k)
  {
    CharIsShortest(s, i);
    c, k := CharAt(s, i).value.0, i + CharAt(s, i).value.1;
  }

  lemma TextGlue(s: Bytes, i: nat, k: nat, c: nat, rest: seq<nat>)
    requires i < k <= |s| && Allowed(c) && AllAllowed(rest) && s[i..k] == Encode(c) && s[k..] == EncodeAll(rest)
    ensures AllAllowed([c] + rest) && s[i..] == EncodeAll([c] + rest)
  {
    EncodeCons(c, rest);
    SliceSplit(s, i, k);
  }

  lemma {:induction false} ValidIsText(s: Bytes, i: nat) returns (cs: seq<nat>)
    requires i <= |s| && ValidFrom(s, i)
    ensures AllAllowed(cs) && s[i..] == EncodeAll(cs)
    decreases |s| - i
  {
    if i == |s| {
      cs := [];
    } else {
      var c, k := CharText(s, i);
      var rest := ValidIsText(s, k);
      TextGlue(s, i, k, c, rest);
      cs := [c] + rest;
    }
  }

  lemma TextStep(s: Bytes, i: nat, k: nat, c: nat)
    requires i <= k <= |s| && Allowed(c) && s[i..k] == Encode(c) && ValidFrom(s, k)
    ensures ValidFrom(s, i)
  {
    assert k == i + |Encode(c)|;
    ShortestIsChar(s, i, c);
    ValidStep(s, i, c, |Encode(c)|);
  }

  lemma TextFirst(s: Bytes, i: nat, cs: seq<nat>) returns (k: nat)
    requires i <= |s| && AllAllowed(cs) && cs != [] && s[i..] == EncodeAll(cs)
    ensures i <= k <= |s| && s[i..k] == Encode(cs[0]) && AllAllowed(cs[1..]) && s[k..] == EncodeAll(cs[1..])
  {
    k := i + |Encode(cs[0])|;
    TextSplits(s, i, Encode(cs[0]), EncodeAll(cs[1..]));
  }

  lemma {:induction false} TextIsValid(s: Bytes, i: nat, cs: seq<nat>)
    requires i <= |s| && AllAllowed(cs) && s[i..] == EncodeAll(cs)
    ensures ValidFrom(s, i)
    decreases |cs|
  {
    if cs != [] {
      var k := TextFirst(s, i, cs);
      TextIsValid(s, k, cs[1..]);
      TextStep(s, i, k, cs[0]);
    }
  }

  lemma TextSplits(s: Bytes, i: nat, e: Bytes, rest: Bytes)
    requires i <= |s| && s[i..] == e + rest
    ensures i + |e| <= |s| && s[i..i + |e|] == e && s[i + |e|..] == rest
  {
    assert s[i..i + |e|] == s[i..][..|e|];
    assert s[i + |e|..] == s[i..][|e|..];
  }

  lemma ValidStep(s: Bytes, i: nat, c: nat, n: nat)
    requires i < |s| && CharAt(s, i) == Some((c, n)) && i + n <= |s| && ValidFrom(s, i + n)
    ensures ValidFrom(s, i)
  {
  }

  /**
   The validator's scan accepts exactly the concatenations of shortest forms of code points up
   to 0x10FFFF that are not NUL, control characters, surrogates or non-characters.
   */
  lemma ValidatorIsExact(s: Bytes)
    ensures ValidFrom(s, 0) <==> IsText(s)
  {
    assert s[0..] == s;
    if ValidFrom(s, 0) {
      var cs := ValidIsText(s, 0);
    }
    if IsText(s) {
      var cs :| AllAllowed(cs) && s == EncodeAll(cs);
      TextIsValid(s, 0, cs);
    }
  }
}
