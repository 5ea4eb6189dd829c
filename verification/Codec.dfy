/**
 The basic encodings of MQTT packets, as functions on byte sequences: each reader is exactly
 the inverse of its writer.
 */
module Codec {
  import opened Basics
  import Utf8

  const TWO_28 := 0x1000_0000
  const TWO_32 := 0x1_0000_0000

  datatype Error = Malformed | MalformedUtf8 | Protocol | Duplicate | Oversize | PayloadSize | TopicAliasInvalid

  datatype Status = Success | Failed(error: Error)

  /** What a read at some position gives: a value and the position behind it, or an error. */
  datatype Read<+T> = Ok(value: T, pos: nat) | Err(error: Error)

  // ---------------------------------------------------------------- variable byte integers

  function VarintBytes(word: nat): nat {
    if word < 128 then 1
    else if word < 16384 then 2
    else if word < 2097152 then 3
    else if word < 268435456 then 4
    else 5
  }

  function Varint(word: nat): Bytes {
    if word < 128 then [word] else [word % 128 + 128] + Varint(word / 128)
  }

  /** Read at most n bytes; a continued integer whose last byte is zero is overlong. */
  function ReadVarintIn(s: Bytes, pos: nat, n: nat): Read<nat>
    decreases n
  {
    if n == 0 || pos >= |s| then Err(Malformed)
    else if s[pos] < 128 then Ok(s[pos], pos + 1)
    else
      match ReadVarintIn(s, pos + 1, n - 1)
      case Err(e) => Err(e)
      case Ok(rest, end) => if rest == 0 then Err(Malformed) else Ok(s[pos] % 128 + 128 * rest, end)
  }

  function ReadVarint(s: Bytes, pos: nat): Read<nat> { ReadVarintIn(s, pos, 4) }

  lemma {:induction false} VarintLength(word: nat)
    requires word < TWO_32
    ensures |Varint(word)| == VarintBytes(word)
  {
    if word >= 128 {
      VarintLength(word / 128);
    }
  }

  /** Is the sequence w at position pos of s? */
  predicate HasAt(s: Bytes, pos: nat, w: Bytes) {
    pos + |w| <= |s| && s[pos..pos + |w|] == w
  }

  lemma HasAtSplit(s: Bytes, pos: nat, a: Bytes, b: Bytes)
    ensures HasAt(s, pos, a + b) <==> HasAt(s, pos, a) && HasAt(s, pos + |a|, b)
  {
    if HasAt(s, pos, a + b) {
      assert s[pos..pos + |a|] == (a + b)[..|a|] == a;
      assert s[pos + |a|..pos + |a| + |b|] == (a + b)[|a|..] == b;
    }
    if HasAt(s, pos, a) && HasAt(s, pos + |a|, b) {
      assert s[pos..pos + |a + b|] == s[pos..pos + |a|] + s[pos + |a|..pos + |a| + |b|];
    }
  }

  /** Largest value of n bytes, plus one. */
  function VarintLimit(n: nat): nat { if n == 0 then 1 else 128 * VarintLimit(n - 1) }

  lemma {:induction false} ReadVarintFinds(s: Bytes, pos: nat, n: nat)
    requires ReadVarintIn(s, pos, n).Ok?
    ensures
      var Ok(word, end) := ReadVarintIn(s, pos, n);
      && word < VarintLimit(n)
      && HasAt(s, pos, Varint(word)) && end == pos + |Varint(word)|
    decreases n
  {
    if s[pos] < 128 {
      assert s[pos..pos + 1] == [s[pos]];
      assert VarintLimit(n) >= 128 by { LimitPositive(n - 1); }
    } else {
      ReadVarintFinds(s, pos + 1, n - 1);
      var Ok(rest, end) := ReadVarintIn(s, pos + 1, n - 1);
      var word := s[pos] % 128 + 128 * rest;
      assert word / 128 == rest && word % 128 + 128 == s[pos];
      assert s[pos..pos + 1] == [s[pos]];
      HasAtSplit(s, pos, [s[pos]], Varint(rest));
    }
  }

  lemma {:induction false} LimitPositive(n: nat)
    ensures VarintLimit(n) >= 1
  {
    if n > 0 { LimitPositive(n - 1); }
  }

  lemma {:induction false} VarintIsRead(s: Bytes, pos: nat, n: nat, word: nat)
    requires word < VarintLimit(n) && n > 0 && HasAt(s, pos, Varint(word))
    ensures ReadVarintIn(s, pos, n) == Ok(word, pos + |Varint(word)|)
    decreases n
  {
    if word < 128 {
      assert s[pos] == s[pos..pos + 1][0] == word;
    } else {
      HasAtSplit(s, pos, [word % 128 + 128], Varint(word / 128));
      assert s[pos] == s[pos..pos + 1][0] == word % 128 + 128;
      VarintIsRead(s, pos + 1, n - 1, word / 128);
    }
  }

  /** The reader accepts exactly the shortest encodings of the integers below 2^28. */
  lemma VarintReaderIsExact(s: Bytes, pos: nat, word: nat, end: nat)
    ensures ReadVarint(s, pos) == Ok(word, end)
       <==> word < TWO_28 && HasAt(s, pos, Varint(word)) && end == pos + |Varint(word)|
  {
    assert VarintLimit(4) == TWO_28 by { assert VarintLimit(2) == 16384; }
    if ReadVarint(s, pos) == Ok(word, end) { ReadVarintFinds(s, pos, 4); }
    if word < TWO_28 && HasAt(s, pos, Varint(word)) { VarintIsRead(s, pos, 4, word); }
  }

  // ---------------------------------------------------------------- fixed integers

  function Uint16(v: nat): Bytes { [v / 256 % 256, v % 256] }

  function Uint32(v: nat): Bytes { [v / 0x100_0000 % 256, v / 0x1_0000 % 256, v / 256 % 256, v % 256] }

  function ReadByte(s: Bytes, pos: nat): Read<Byte> {
    if pos + 1 > |s| then Err(Malformed) else Ok(s[pos], pos + 1)
  }

  function ReadUint16(s: Bytes, pos: nat): Read<nat> {
    if pos + 2 > |s| then Err(Malformed) else Ok(s[pos] as nat * 256 + s[pos + 1], pos + 2)
  }

  function ReadUint32(s: Bytes, pos: nat): Read<nat> {
    if pos + 4 > |s| then Err(Malformed)
    else Ok(((s[pos] as nat * 256 + s[pos + 1]) * 256 + s[pos + 2]) * 256 + s[pos + 3], pos + 4)
  }

  lemma ByteReaderIsExact(s: Bytes, pos: nat, v: Byte, end: nat)
    ensures ReadByte(s, pos) == Ok(v, end) <==> HasAt(s, pos, [v]) && end == pos + 1
  {
    if pos < |s| { assert s[pos..pos + 1] == [s[pos]]; }
  }

  lemma Uint16ReaderIsExact(s: Bytes, pos: nat, v: nat, end: nat)
    ensures ReadUint16(s, pos) == Ok(v, end) <==> v < 65536 && HasAt(s, pos, Uint16(v)) && end == pos + 2
  {
    if pos + 2 <= |s| { assert s[pos..pos + 2] == [s[pos], s[pos + 1]]; }
  }

  lemma Digit256(x: nat, d: nat)
    requires d < 256
    ensures (x * 256 + d) / 256 == x && (x * 256 + d) % 256 == d
  {
  }

  lemma Quotients(v: nat)
    ensures v / 0x1_0000 == v / 256 / 256 && v / 0x100_0000 == v / 256 / 256 / 256
  {
  }

  lemma Uint32Is(v: nat, a: nat, b: nat, c: nat, d: nat)
    requires a < 256 && b < 256 && c < 256 && d < 256
    requires v / 0x100_0000 == a && v / 0x1_0000 % 256 == b && v / 256 % 256 == c && v % 256 == d
    ensures Uint32(v) == [a, b, c, d]
  {
  }

  lemma Uint32Parts(a: nat, b: nat, c: nat, d: nat)
    requires a < 256 && b < 256 && c < 256 && d < 256
    ensures Uint32(((a * 256 + b) * 256 + c) * 256 + d) == [a, b, c, d]
  {
    var x := a * 256 + b;
    var y := x * 256 + c;
    Digit256(a, b);
    Digit256(x, c);
    Digit256(y, d);
    Quotients(y * 256 + d);
    Uint32Is(y * 256 + d, a, b, c, d);
  }

  lemma Uint32Joined(v: nat)
    requires v < TWO_32
    ensures
      var w := Uint32(v);
      ((w[0] as nat * 256 + w[1]) * 256 + w[2]) * 256 + w[3] == v
  {
    assert v == v / 256 * 256 + v % 256;
    assert v / 256 == v / 0x1_0000 * 256 + v / 256 % 256;
    assert v / 0x1_0000 == v / 0x100_0000 * 256 + v / 0x1_0000 % 256;
  }

  lemma Uint32ReaderIsExact(s: Bytes, pos: nat, v: nat, end: nat)
    ensures ReadUint32(s, pos) == Ok(v, end) <==> v < TWO_32 && HasAt(s, pos, Uint32(v)) && end == pos + 4
  {
    if pos + 4 <= |s| {
      assert s[pos..pos + 4] == [s[pos], s[pos + 1], s[pos + 2], s[pos + 3]];
      Uint32Parts(s[pos], s[pos + 1], s[pos + 2], s[pos + 3]);
      if v < TWO_32 { Uint32Joined(v); }
    }
  }

  // ---------------------------------------------------------------- binary data and strings

  function Binary(data: Bytes): Bytes { Uint16(|data|) + data }

  function ReadBinary(s: Bytes, pos: nat): Read<Bytes> {
    match ReadUint16(s, pos)
    case Err(e) => Err(e)
    case Ok(len, start) =>
      if start + len > |s| then Err(Malformed) else Ok(s[start..start + len], start + len)
  }

  predicate IsString(data: Bytes) { Utf8.ValidFrom(data, 0) }

  function ReadString(s: Bytes, pos: nat): Read<Bytes> {
    match ReadBinary(s, pos)
    case Err(e) => Err(e)
    case Ok(data, end) => if data == [] || IsString(data) then Ok(data, end) else Err(MalformedUtf8)
  }

  lemma BinaryReaderIsExact(s: Bytes, pos: nat, data: Bytes, end: nat)
    ensures ReadBinary(s, pos) == Ok(data, end)
       <==> |data| < 65536 && HasAt(s, pos, Binary(data)) && end == pos + |Binary(data)|
  {
    if |data| < 65536 {
      HasAtSplit(s, pos, Uint16(|data|), data);
      Uint16ReaderIsExact(s, pos, |data|, pos + 2);
    }
    if ReadBinary(s, pos) == Ok(data, end) {
      Uint16ReaderIsExact(s, pos, ReadUint16(s, pos).value, pos + 2);
    }
  }

  lemma StringReaderIsExact(s: Bytes, pos: nat, data: Bytes, end: nat)
    ensures ReadString(s, pos) == Ok(data, end)
       <==> |data| < 65536 && IsString(data) && HasAt(s, pos, Binary(data)) && end == pos + |Binary(data)|
  {
    BinaryReaderIsExact(s, pos, data, end);
  }
}
