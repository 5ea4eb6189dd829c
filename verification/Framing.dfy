/**
 How a byte stream divides into packets: a machine that takes one byte at a time, and the streams
 it accepts.
 */
module Framing {
  import opened Basics
  import opened Codec

  datatype Packet = Packet(command: Byte, body: Bytes)

  /**
   Where in the stream we are. In Length, `count` length bytes have been seen, all of them with the
   continuation bit. Broken is behind a fifth length byte, Zero behind a zero command byte.
   */
  datatype Stage =
    | Idle
    | Length(command: Byte, count: nat, mult: nat, length: nat)
    | Payload(command: Byte, size: nat, body: Bytes)
    | Broken
    | Zero

  datatype Parse = Parse(stage: Stage, packets: seq<Packet>)

  const START := Parse(Idle, [])

  /** All but `body` of a packet has been seen: it may be complete. */
  function Filled(command: Byte, size: nat, body: Bytes, packets: seq<Packet>): Parse {
    if |body| == size then Parse(Idle, packets + [Packet(command, body)])
    else Parse(Payload(command, size, body), packets)
  }

  /** A length with one more digit. */
  function Plus(length: nat, b: Byte, mult: nat): nat { length + b % 128 * mult }

  function Feed(p: Parse, b: Byte): Parse {
    match p.stage
    case Idle => Parse(if b == 0 then Zero else Length(b, 0, 1, 0), p.packets)
    case Length(command, count, mult, length) =>
      if count >= 4 then Parse(Broken, p.packets)
      else if b >= 128 then Parse(Length(command, count + 1, mult * 128, Plus(length, b, mult)), p.packets)
      else Filled(command, Plus(length, b, mult), [], p.packets)
    case Payload(command, size, body) => Filled(command, size, body + [b], p.packets)
    case _ => p
  }

  function FeedAll(p: Parse, s: Bytes): Parse {
    if s == [] then p else Feed(FeedAll(p, s[..|s| - 1]), s[|s| - 1])
  }

  predicate Stuck(p: Parse) { p.stage.Broken? || p.stage.Zero? }

  // ---------------------------------------------------------------- feeding piecewise

  lemma FeedOne(p: Parse, s: Bytes, b: Byte)
    ensures FeedAll(p, s + [b]) == Feed(FeedAll(p, s), b)
  {
    assert (s + [b])[..|s|] == s;
  }

  lemma {:induction false} FeedMore(p: Parse, s: Bytes, t: Bytes)
    ensures FeedAll(p, s + t) == FeedAll(FeedAll(p, s), t)
    decreases |t|
  {
    if t == [] {
      assert s + t == s;
    } else {
      var front := t[..|t| - 1];
      FeedMore(p, s, front);
      assert s + t == (s + front) + [t[|t| - 1]];
      FeedOne(p, s + front, t[|t| - 1]);
    }
  }

  lemma {:induction false} StuckStays(p: Parse, s: Bytes)
    requires Stuck(p)
    ensures FeedAll(p, s) == p
  {
    if s != [] {
      StuckStays(p, s[..|s| - 1]);
    }
  }

  /** Payload bytes are taken as they come. */
  lemma {:induction false} FeedPayload(command: Byte, size: nat, body: Bytes, packets: seq<Packet>, s: Bytes)
    requires |body| < size && |body| + |s| <= size
    ensures FeedAll(Parse(Payload(command, size, body), packets), s) == Filled(command, size, body + s, packets)
  {
    if s == [] {
      assert body + s == body;
    } else {
      FeedPayload(command, size, body, packets, s[..|s| - 1]);
      assert body + s == (body + s[..|s| - 1]) + [s[|s| - 1]];
    }
  }

  // ---------------------------------------------------------------- the streams accepted

  /** The number written by length bytes, lowest digit first. */
  function LengthValue(ls: Bytes): nat {
    if ls == [] then 0 else ls[0] % 128 + 128 * LengthValue(ls[1..])
  }

  predicate Continued(ls: Bytes) { forall i | 0 <= i < |ls| :: ls[i] >= 128 }

  /** One to four bytes, all but the last with the continuation bit. */
  predicate IsLength(ls: Bytes, n: nat) {
    && 1 <= |ls| <= 4 && Continued(ls[..|ls| - 1]) && ls[|ls| - 1] < 128
    && LengthValue(ls) == n
  }

  ghost predicate IsFrame(s: Bytes, p: Packet) {
    exists ls :: FrameWith(s, p, ls)
  }

  predicate FrameWith(s: Bytes, p: Packet, ls: Bytes) {
    p.command != 0 && IsLength(ls, |p.body|) && s == [p.command] + ls + p.body
  }

  function Concat(parts: seq<Bytes>): Bytes {
    if parts == [] then [] else Concat(parts[..|parts| - 1]) + parts[|parts| - 1]
  }

  /** Each part is a packet as it stands in the stream. */
  ghost predicate Frames(parts: seq<Bytes>, ps: seq<Packet>) {
    && |parts| == |ps|
    && (parts == [] ||
        (IsFrame(parts[|parts| - 1], ps[|ps| - 1]) && Frames(parts[..|parts| - 1], ps[..|ps| - 1])))
  }

  /** What has been seen of a packet that is not complete. */
  ghost predicate Partial(rest: Bytes, stage: Stage) {
    match stage
    case Idle => rest == []
    case Length(command, count, mult, length) =>
      && command != 0 && count <= 4 && |rest| == 1 + count && rest[0] == command && Continued(rest[1..])
      && mult == VarintLimit(count) && length == LengthValue(rest[1..])
    case Payload(command, size, body) =>
      && command != 0 && |body| < size
      && exists ls :: PayloadWith(rest, command, size, body, ls)
    case _ => false
  }

  ghost predicate PayloadWith(rest: Bytes, command: Byte, size: nat, body: Bytes, ls: Bytes) {
    IsLength(ls, size) && rest == [command] + ls + body
  }

  /** The stream s is complete packets followed by an incomplete one. */
  ghost predicate Divides(s: Bytes, p: Parse, parts: seq<Bytes>, rest: Bytes) {
    s == Concat(parts) + rest && Frames(parts, p.packets) && Partial(rest, p.stage)
  }

  // ---------------------------------------------------------------- the machine finds the packets

  lemma {:induction false} LengthSnoc(ls: Bytes, b: Byte)
    ensures LengthValue(ls + [b]) == Plus(LengthValue(ls), b, VarintLimit(|ls|))
  {
    if ls == [] {
      assert ls + [b] == [b];
      assert [b][1..] == [];
    } else {
      LengthSnoc(ls[1..], b);
      assert (ls + [b])[1..] == ls[1..] + [b];
      Scale(b % 128, VarintLimit(|ls| - 1));
    }
  }

  lemma Scale(x: nat, y: nat)
    ensures 128 * (x * y) == x * (128 * y)
  {
  }

  lemma Completed(parts: seq<Bytes>, rest: Bytes, ps: seq<Packet>, q: Packet, b: Byte)
    requires Frames(parts, ps) && IsFrame(rest + [b], q)
    ensures Frames(parts + [rest + [b]], ps + [q])
    ensures Concat(parts + [rest + [b]]) == (Concat(parts) + rest) + [b]
  {
    assert (parts + [rest + [b]])[..|parts|] == parts && (ps + [q])[..|ps|] == ps;
  }

  lemma FilledDivides(s: Bytes, parts: seq<Bytes>, rest: Bytes, ps: seq<Packet>, command: Byte, size: nat, body: Bytes, ls: Bytes,
                      b: Byte) returns (parts': seq<Bytes>, rest': Bytes)
    requires s == Concat(parts) + rest && Frames(parts, ps)
    requires command != 0 && |body| <= size && PayloadWith(rest + [b], command, size, body, ls)
    ensures Divides(s + [b], Filled(command, size, body, ps), parts', rest')
  {
    if |body| == size {
      assert FrameWith(rest + [b], Packet(command, body), ls);
      Completed(parts, rest, ps, Packet(command, body), b);
      parts', rest' := parts + [rest + [b]], [];
      assert Concat(parts') + rest' == Concat(parts');
    } else {
      parts', rest' := parts, rest + [b];
      assert s + [b] == Concat(parts) + rest';
    }
  }

  lemma DigitDivides(s: Bytes, p: Parse, parts: seq<Bytes>, rest: Bytes, b: Byte) returns (parts': seq<Bytes>, rest': Bytes)
    requires Divides(s, p, parts, rest) && p.stage.Length? && p.stage.count < 4
    ensures Divides(s + [b], Feed(p, b), parts', rest')
  {
    var ls := rest[1..];
    var command, size := p.stage.command, Plus(p.stage.length, b, p.stage.mult);
    LengthSnoc(ls, b);
    assert (rest + [b])[1..] == ls + [b];
    if b >= 128 {
      parts', rest' := parts, rest + [b];
      assert s + [b] == Concat(parts) + rest';
    } else {
      assert (ls + [b])[..|ls|] == ls;
      assert rest + [b] == [command] + (ls + [b]) + [];
      assert PayloadWith(rest + [b], command, size, [], ls + [b]);
      parts', rest' := FilledDivides(s, parts, rest, p.packets, command, size, [], ls + [b], b);
    }
  }

  lemma FeedDivides(s: Bytes, p: Parse, parts: seq<Bytes>, rest: Bytes, b: Byte) returns (parts': seq<Bytes>, rest': Bytes)
    requires Divides(s, p, parts, rest) && !Stuck(Feed(p, b))
    ensures Divides(s + [b], Feed(p, b), parts', rest')
  {
    match p.stage
    case Idle =>
      parts', rest' := parts, [b];
      assert rest + [b] == [b];
      assert s + [b] == Concat(parts) + rest';
      assert [b][1..] == [];
    case Length(_, _, _, _) =>
      parts', rest' := DigitDivides(s, p, parts, rest, b);
    case Payload(command, size, body) =>
      var ls :| PayloadWith(rest, command, size, body, ls);
      assert rest + [b] == [command] + ls + (body + [b]);
      parts', rest' := FilledDivides(s, parts, rest, p.packets, command, size, body + [b], ls, b);
  }

  /** Unless it is stuck, the machine has divided the stream into packets and an incomplete rest. */
  lemma {:induction false} ParseDivides(s: Bytes) returns (parts: seq<Bytes>, rest: Bytes)
    requires !Stuck(FeedAll(START, s))
    ensures Divides(s, FeedAll(START, s), parts, rest)
  {
    if s == [] {
      parts, rest := [], [];
    } else {
      var front, b := s[..|s| - 1], s[|s| - 1];
      if Stuck(FeedAll(START, front)) {
        StuckStays(FeedAll(START, front), [b]);
        assert false;
      }
      parts, rest := ParseDivides(front);
      parts, rest := FeedDivides(front, FeedAll(START, front), parts, rest, b);
      assert front + [b] == s;
    }
  }

  // ---------------------------------------------------------------- every division is found

  lemma {:induction false} LengthFed(command: Byte, ls: Bytes, packets: seq<Packet>)
    requires |ls| <= 4 && Continued(ls)
    ensures FeedAll(Parse(Length(command, 0, 1, 0), packets), ls)
         == Parse(Length(command, |ls|, VarintLimit(|ls|), LengthValue(ls)), packets)
  {
    if ls != [] {
      var front, b := ls[..|ls| - 1], ls[|ls| - 1];
      LengthFed(command, front, packets);
      LengthSnoc(front, b);
      assert front + [b] == ls;
    }
  }

  lemma CommandFed(command: Byte, packets: seq<Packet>)
    requires command != 0
    ensures FeedAll(Parse(Idle, packets), [command]) == Parse(Length(command, 0, 1, 0), packets)
  {
    assert [command][..0] == [];
  }

  lemma DigitsFed(command: Byte, front: Bytes, packets: seq<Packet>)
    requires command != 0 && |front| <= 4 && Continued(front)
    ensures FeedAll(Parse(Idle, packets), [command] + front)
         == Parse(Length(command, |front|, VarintLimit(|front|), LengthValue(front)), packets)
  {
    CommandFed(command, packets);
    LengthFed(command, front, packets);
    FeedMore(Parse(Idle, packets), [command], front);
  }

  lemma LastDigit(ls: Bytes, n: nat)
    requires IsLength(ls, n)
    ensures
      var front, b := ls[..|ls| - 1], ls[|ls| - 1];
      Continued(front) && |front| < 4 && b < 128 && front + [b] == ls && n == Plus(LengthValue(front), b, VarintLimit(|front|))
  {
    var front, b := ls[..|ls| - 1], ls[|ls| - 1];
    LengthSnoc(front, b);
    assert front + [b] == ls;
  }

  lemma HeaderFed(command: Byte, ls: Bytes, n: nat, packets: seq<Packet>)
    requires command != 0 && IsLength(ls, n)
    ensures FeedAll(Parse(Idle, packets), [command] + ls) == Filled(command, n, [], packets)
  {
    var front, b := ls[..|ls| - 1], ls[|ls| - 1];
    LastDigit(ls, n);
    DigitsFed(command, front, packets);
    FeedOne(Parse(Idle, packets), [command] + front, b);
    assert [command] + front + [b] == [command] + (front + [b]);
  }

  /** A whole packet, from its first byte to its last. */
  lemma FrameFed(s: Bytes, p: Packet, packets: seq<Packet>)
    requires IsFrame(s, p)
    ensures FeedAll(Parse(Idle, packets), s) == Parse(Idle, packets + [p])
  {
    var ls :| FrameWith(s, p, ls);
    HeaderFed(p.command, ls, |p.body|, packets);
    if |p.body| == 0 {
      assert s == [p.command] + ls;
    } else {
      FeedMore(Parse(Idle, packets), [p.command] + ls, p.body);
      FeedPayload(p.command, |p.body|, [], packets, p.body);
      assert [] + p.body == p.body;
    }
  }

  lemma FrameAfter(s: Bytes, packets: seq<Packet>, t: Bytes, p: Packet)
    requires FeedAll(START, s) == Parse(Idle, packets) && IsFrame(t, p)
    ensures FeedAll(START, s + t) == Parse(Idle, packets + [p])
  {
    FeedMore(START, s, t);
    FrameFed(t, p, packets);
  }

  lemma {:induction false} FramesFed(parts: seq<Bytes>, ps: seq<Packet>)
    requires Frames(parts, ps)
    ensures FeedAll(START, Concat(parts)) == Parse(Idle, ps)
    decreases |parts|
  {
    if parts != [] {
      var front, last := parts[..|parts| - 1], parts[|parts| - 1];
      var before, p := ps[..|ps| - 1], ps[|ps| - 1];
      FramesFed(front, before);
      FrameAfter(Concat(front), before, last, p);
      assert before + [p] == ps;
    }
  }

  ghost predicate IsStream(s: Bytes, ps: seq<Packet>) {
    exists parts :: StreamWith(s, ps, parts)
  }

  ghost predicate StreamWith(s: Bytes, ps: seq<Packet>, parts: seq<Bytes>) {
    Frames(parts, ps) && s == Concat(parts)
  }

  /** The machine rests with packets ps exactly on the streams that are those packets one after the other. */
  lemma FramingIsExact(s: Bytes, ps: seq<Packet>)
    ensures FeedAll(START, s) == Parse(Idle, ps) <==> IsStream(s, ps)
  {
    if FeedAll(START, s) == Parse(Idle, ps) {
      var parts, rest := ParseDivides(s);
      assert Concat(parts) + rest == Concat(parts);
      assert StreamWith(s, ps, parts);
    }
    if parts :| StreamWith(s, ps, parts) {
      FramesFed(parts, ps);
    }
  }

  // ---------------------------------------------------------------- what the writer produces

  lemma {:induction false} VarintIsLength(n: nat, k: nat)
    requires 1 <= k <= 4 && n < VarintLimit(k)
    ensures |Varint(n)| <= k && IsLength(Varint(n), n)
    decreases k
  {
    var ls := Varint(n);
    if n < 128 {
      assert ls[1..] == [];
    } else {
      VarintIsLength(n / 128, k - 1);
      var rest := Varint(n / 128);
      assert ls[1..] == rest;
      assert ls[..|ls| - 1] == [ls[0]] + rest[..|rest| - 1];
    }
  }

  /** The packets this library writes are packets to the machine. */
  lemma WrittenIsFrame(command: Byte, body: Bytes)
    requires command != 0 && |body| < TWO_28
    ensures IsFrame([command] + Varint(|body|) + body, Packet(command, body))
  {
    assert VarintLimit(4) == TWO_28 by { assert VarintLimit(3) == 2097152; }
    VarintIsLength(|body|, 4);
    assert FrameWith([command] + Varint(|body|) + body, Packet(command, body), Varint(|body|));
  }
}
