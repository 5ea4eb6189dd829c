/** Whole connections as bytes: what is written, divided into packets by the other side's reader and taken apart. */
module PublishStream {
  import opened Basics
  import opened Alias
  import opened PublishCodec
  import opened PublishIn
  import opened PublishLaws
  import F = Framing

  predicate AllQos(items: seq<Item>) { forall i | 0 <= i < |items| :: items[i].p.qos <= 2 }

  /** The bytes of the packets sent, one after the other. */
  function Stream(v5: bool, l2r: seq<Entry>, max: nat, maximumPacketSize: nat, items: seq<Item>): Bytes
    requires AllQos(items)
    decreases |items|
  {
    if items == [] then []
    else
      var (l2r', head) := HeadOf(v5, l2r, max, items[0].p.topic);
      var rest := Stream(v5, l2r', max, maximumPacketSize, items[1..]);
      match Framed(maximumPacketSize, Command(items[0].p), BodyOf(v5, head, items[0]))
      case NotSent(_) => rest
      case Packet(bytes) => bytes + rest
  }

  /** handle__publish on one packet after the other. */
  function DecodeAll(c: Conn, r2l: seq<Entry>, packets: seq<F.Packet>): seq<Outcome>
    decreases |packets|
  {
    if packets == [] then []
    else
      var (r2l', o) := Decode(c, r2l, packets[0].command, packets[0].body);
      [o] + DecodeAll(c, r2l', packets[1..])
  }

  /** The packets sent. */
  function Packets(v5: bool, l2r: seq<Entry>, max: nat, maximumPacketSize: nat, items: seq<Item>): seq<F.Packet>
    requires AllQos(items)
    decreases |items|
  {
    if items == [] then []
    else
      var (l2r', head) := HeadOf(v5, l2r, max, items[0].p.topic);
      var rest := Packets(v5, l2r', max, maximumPacketSize, items[1..]);
      if Framed(maximumPacketSize, Command(items[0].p), BodyOf(v5, head, items[0])).NotSent? then rest
      else [F.Packet(Command(items[0].p), BodyOf(v5, head, items[0]))] + rest
  }

  /** The entries of xs at which there is an outcome. */
  function Where<T>(xs: seq<T>, got: seq<Option<Outcome>>): seq<T>
    requires |xs| == |got|
  {
    if xs == [] then []
    else (if got[0].Some? then [xs[0]] else []) + Where(xs[1..], got[1..])
  }

  function Outcomes(got: seq<Option<Outcome>>): seq<Outcome> {
    if got == [] then []
    else (if got[0].Some? then [got[0].value] else []) + Outcomes(got[1..])
  }

  /** The reader divides the bytes into exactly the packets sent, and rests behind the last one. */
  lemma {:induction false} StreamIsRead(v5: bool, l2r: seq<Entry>, max: nat, maximumPacketSize: nat, items: seq<Item>,
                                        before: seq<F.Packet>)
    requires AllQos(items)
    ensures F.FeedAll(F.Parse(F.Idle, before), Stream(v5, l2r, max, maximumPacketSize, items))
         == F.Parse(F.Idle, before + Packets(v5, l2r, max, maximumPacketSize, items))
    decreases |items|
  {
    if items == [] {
      assert before + [] == before;
    } else {
      var (l2r', head) := HeadOf(v5, l2r, max, items[0].p.topic);
      var body := BodyOf(v5, head, items[0]);
      var command := Command(items[0].p);
      var rest := Stream(v5, l2r', max, maximumPacketSize, items[1..]);
      match Framed(maximumPacketSize, command, body)
      case NotSent(_) => StreamIsRead(v5, l2r', max, maximumPacketSize, items[1..], before);
      case Packet(bytes) =>
        var packet := F.Packet(command, body);
        FramedIsRead(maximumPacketSize, items[0].p, body, before);
        F.FeedMore(F.Parse(F.Idle, before), bytes, rest);
        StreamIsRead(v5, l2r', max, maximumPacketSize, items[1..], before + [packet]);
        Regroup(before, packet, Packets(v5, l2r', max, maximumPacketSize, items[1..]));
    }
  }

  lemma Regroup(a: seq<F.Packet>, p: F.Packet, b: seq<F.Packet>)
    ensures (a + [p]) + b == a + ([p] + b)
  {
  }

  /** Taken apart in order, they give the outcomes of the exchange. */
  lemma {:induction false} PacketsAreExchange(c: Conn, l2r: seq<Entry>, r2l: seq<Entry>, max: nat, maximumPacketSize: nat,
                                              items: seq<Item>)
    requires AllQos(items)
    ensures DecodeAll(c, r2l, Packets(c.v5, l2r, max, maximumPacketSize, items))
         == Outcomes(Exchange(c, l2r, r2l, max, maximumPacketSize, items))
    decreases |items|
  {
    if items != [] {
      var (l2r', head) := HeadOf(c.v5, l2r, max, items[0].p.topic);
      var body := BodyOf(c.v5, head, items[0]);
      if Framed(maximumPacketSize, Command(items[0].p), body).NotSent? {
        PacketsAreExchange(c, l2r', r2l, max, maximumPacketSize, items[1..]);
        OutcomesFirst(None, Exchange(c, l2r', r2l, max, maximumPacketSize, items[1..]));
      } else {
        var (r2l', o) := Decode(c, r2l, Command(items[0].p), body);
        PacketsAreExchange(c, l2r', r2l', max, maximumPacketSize, items[1..]);
        OutcomesFirst(Some(o), Exchange(c, l2r', r2l', max, maximumPacketSize, items[1..]));
        DecodeFirst(c, r2l, F.Packet(Command(items[0].p), body), Packets(c.v5, l2r', max, maximumPacketSize, items[1..]));
      }
    }
  }

  lemma OutcomesFirst(o: Option<Outcome>, rest: seq<Option<Outcome>>)
    ensures Outcomes([o] + rest) == (if o.Some? then [o.value] else []) + Outcomes(rest)
  {
    assert ([o] + rest)[1..] == rest;
  }

  lemma DecodeFirst(c: Conn, r2l: seq<Entry>, p: F.Packet, rest: seq<F.Packet>)
    ensures
      var (r2l', o) := Decode(c, r2l, p.command, p.body);
      DecodeAll(c, r2l, [p] + rest) == [o] + DecodeAll(c, r2l', rest)
  {
    assert ([p] + rest)[1..] == rest;
  }

  lemma {:induction false} WhereFaithful(v5: bool, items: seq<Item>, got: seq<Option<Outcome>>)
    requires AllFaithful(v5, items, got)
    ensures |Where(items, got)| == |Outcomes(got)|
    ensures forall i | 0 <= i < |Outcomes(got)| :: Faithful(v5, Where(items, got)[i], Some(Outcomes(got)[i]))
  {
    if items != [] {
      WhereFaithful(v5, items[1..], got[1..]);
    }
  }

  /**
   The bytes of a whole connection, divided by the packet reader and taken apart by the client, whose
   alias table may hold anything, are the messages that were sent: each of them, in order, with every field.
   */
  lemma StreamIsFaithful(c: Conn, stale: seq<Entry>, max: nat, maximumPacketSize: nat, items: seq<Item>)
    requires AllQos(items) && max <= c.limit && Orderly(c, [], max, maximumPacketSize, items)
    ensures
      var parse := F.FeedAll(F.START, Stream(c.v5, [], max, maximumPacketSize, items));
      var got := Exchange(c, [], stale, max, maximumPacketSize, items);
      var heard := DecodeAll(c, stale, parse.packets);
      && parse.stage == F.Idle
      && |got| == |items| && |heard| == |Where(items, got)|
      && forall i | 0 <= i < |heard| :: Faithful(c.v5, Where(items, got)[i], Some(heard[i]))
  {
    StreamIsRead(c.v5, [], max, maximumPacketSize, items, []);
    assert [] + Packets(c.v5, [], max, maximumPacketSize, items) == Packets(c.v5, [], max, maximumPacketSize, items);
    PacketsAreExchange(c, [], stale, max, maximumPacketSize, items);
    ExchangeFrom(c, [], stale, max, maximumPacketSize, items);
    WhereFaithful(c.v5, items, Exchange(c, [], stale, max, maximumPacketSize, items));
  }
}
