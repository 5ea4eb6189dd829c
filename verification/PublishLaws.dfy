/** What a client reads is what the sender wrote, packet by packet and over whole connections. */
module PublishLaws {
  import opened Basics
  import opened Codec
  import opened Properties
  import opened Alias
  import opened PublishCodec
  import opened PublishIn
  import F = Framing
  import Topic

  // ---------------------------------------------------------------- the flags

  predicate HasFlags(command: Byte, p: Publish) {
    QosOf(command) == p.qos && DupOf(command) == p.dup && RetainOf(command) == p.retain
  }

  lemma FlagsAreExact(p: Publish)
    requires p.qos <= 2
    ensures HasFlags(Command(p), p)
    ensures Command(p) / 16 * 16 == CMD_PUBLISH
  {
    var low := 2 * p.qos + Bit(p.retain);
    assert low < 8 && low / 2 == p.qos && low % 2 == Bit(p.retain);
  }

  // ---------------------------------------------------------------- the fields

  predicate Readable(c: Conn, topic: Option<Name>, p: Publish, wire: seq<Property>) {
    && (c.v5 || topic.Some?)
    && (p.qos > 0 ==> p.mid != 0 && (c.v5 ==> c.quota > 0))
    && (c.v5 ==> Checked(CMD_PUBLISH, wire))
  }

  function MidOf(p: Publish): nat { if p.qos > 0 then p.mid else 0 }

  function PropsOf(v5: bool, wire: seq<Property>): seq<Property> { if v5 then wire else [] }

  lemma MidIsExact(c: Conn, p: Publish, s: Bytes, pos: nat)
    requires HasAt(s, pos, MidBytes(p)) && p.mid < 65536
    ensures ReadMid(c, p.qos, s, pos)
         == if p.qos > 0 && (p.mid == 0 || (c.v5 && c.quota == 0)) then Err(Protocol)
            else Ok(MidOf(p), pos + |MidBytes(p)|)
  {
    if p.qos > 0 {
      Uint16ReaderIsExact(s, pos, p.mid, pos + 2);
    }
  }

  lemma PropsAreExact(c: Conn, wire: seq<Property>, s: Bytes, pos: nat)
    requires HasAt(s, pos, PropBytes(c.v5, wire)) && (c.v5 ==> AllWellTyped(wire)) && |s| < TWO_28
    ensures c.v5 && !Checked(CMD_PUBLISH, wire) ==> ReadProps(c, s, pos).Err?
    ensures !(c.v5 && !Checked(CMD_PUBLISH, wire)) ==>
      ReadProps(c, s, pos) == Ok(PropsOf(c.v5, wire), pos + |PropBytes(c.v5, wire)|)
  {
    if c.v5 {
      PropertyListReaderIsExact(s, pos, wire, pos + |Written(wire)|);
    }
  }

  lemma FieldsFrom(c: Conn, topic: Option<Name>, p: Publish, wire: seq<Property>, s: Bytes)
    requires |TopicBytes(topic)| < 65536 && p.mid < 65536 && (c.v5 ==> AllWellTyped(wire)) && |s| < TWO_28
    requires HasAt(s, 0, Binary(TopicBytes(topic)))
    requires HasAt(s, 2 + |TopicBytes(topic)|, MidBytes(p))
    requires HasAt(s, 2 + |TopicBytes(topic)| + |MidBytes(p)|, PropBytes(c.v5, wire))
    ensures
      var end := 2 + |TopicBytes(topic)| + |MidBytes(p)| + |PropBytes(c.v5, wire)|;
      if Readable(c, topic, p, wire) then
        ReadFields(c, p.qos, s) == Ok(Fields(TopicBytes(topic), MidOf(p), PropsOf(c.v5, wire)), end)
      else ReadFields(c, p.qos, s).Err?
  {
    var name := TopicBytes(topic);
    var afterName := 2 + |name|;
    var afterMid := afterName + |MidBytes(p)|;
    TopicIsExact(topic, s);
    MidIsExact(c, p, s, afterName);
    PropsAreExact(c, wire, s, afterMid);
    FieldsAre(c, p.qos, s, name, afterName, ReadMid(c, p.qos, s, afterName), ReadProps(c, s, afterMid));
  }

  /** The three readers one after the other. */
  lemma FieldsAre(c: Conn, qos: nat, s: Bytes, name: Bytes, afterName: nat, mid: Read<nat>, props: Read<seq<Property>>)
    requires ReadString(s, 0) == Ok(name, afterName) && mid == ReadMid(c, qos, s, afterName)
    requires mid.Ok? ==> props == ReadProps(c, s, mid.pos)
    ensures ReadFields(c, qos, s).Ok? <==> (c.v5 || name != []) && mid.Ok? && props.Ok?
    ensures ReadFields(c, qos, s).Ok? ==> ReadFields(c, qos, s) == Ok(Fields(name, mid.value, props.value), props.pos)
  {
  }

  lemma TopicIsExact(topic: Option<Name>, s: Bytes)
    requires |TopicBytes(topic)| < 65536 && HasAt(s, 0, Binary(TopicBytes(topic)))
    ensures ReadString(s, 0) == Ok(TopicBytes(topic), 2 + |TopicBytes(topic)|)
  {
    StringReaderIsExact(s, 0, TopicBytes(topic), 2 + |TopicBytes(topic)|);
  }

  /** The fields are read back, or refused, exactly as the client's conditions say. */
  lemma FieldsAreExact(c: Conn, topic: Option<Name>, p: Publish, wire: seq<Property>)
    requires Sendable(c.v5, p, wire) && |Body(c.v5, topic, p, wire)| < TWO_28 && |TopicBytes(topic)| < 65536
    ensures
      var s := Body(c.v5, topic, p, wire);
      if Readable(c, topic, p, wire) then
        ReadFields(c, p.qos, s) == Ok(Fields(TopicBytes(topic), MidOf(p), PropsOf(c.v5, wire)), |s| - |p.payload|)
      else ReadFields(c, p.qos, s).Err?
  {
    BodyHas(c.v5, topic, p, wire);
    FieldsFrom(c, topic, p, wire, Body(c.v5, topic, p, wire));
  }

  lemma BodyHas(v5: bool, topic: Option<Name>, p: Publish, wire: seq<Property>)
    ensures
      var s := Body(v5, topic, p, wire);
      var afterName := 2 + |TopicBytes(topic)|;
      var afterMid := afterName + |MidBytes(p)|;
      && HasAt(s, 0, Binary(TopicBytes(topic)))
      && HasAt(s, afterName, MidBytes(p))
      && HasAt(s, afterMid, PropBytes(v5, wire))
      && |s| == afterMid + |PropBytes(v5, wire)| + |p.payload|
      && s[|s| - |p.payload|..] == p.payload
  {
    HasParts(Binary(TopicBytes(topic)), MidBytes(p), PropBytes(v5, wire), p.payload);
  }

  lemma HasParts(a: Bytes, b: Bytes, c: Bytes, d: Bytes)
    ensures
      var s := a + b + c + d;
      && HasAt(s, 0, a) && HasAt(s, |a|, b) && HasAt(s, |a| + |b|, c)
      && s[|a| + |b| + |c|..] == d
  {
  }

  // ---------------------------------------------------------------- property lists with additions

  lemma {:induction false} OccursAppend(id: nat, a: seq<Property>, b: seq<Property>)
    ensures Occurs(id, a + b) <==> Occurs(id, a) || Occurs(id, b)
  {
    if a == [] {
      assert a + b == b;
    } else {
      OccursAppend(id, a[1..], b);
      assert (a + b)[1..] == a[1..] + b;
    }
  }

  lemma {:induction false} CheckedAppend(command: nat, a: seq<Property>, q: Property)
    ensures Checked(command, a + [q])
       <==> Checked(command, a) && Acceptable(command, q) && (q.id == USER_PROPERTY || !Occurs(q.id, a))
  {
    if a == [] {
      assert a + [q] == [q];
      assert [q][1..] == [];
    } else {
      CheckedAppend(command, a[1..], q);
      OccursAppend(a[0].id, a[1..], [q]);
      assert [q][1..] == [];
      assert (a + [q])[1..] == a[1..] + [q];
    }
  }

  /** The alias property does not change whether the list passes, if there is none yet. */
  lemma CheckedWithAlias(props: seq<Property>, expiry: nat, alias: Option<nat>, id: nat)
    requires !Occurs(TOPIC_ALIAS, props) && (alias.Some? ==> alias.value != 0)
    ensures Checked(CMD_PUBLISH, WireProps(props, expiry, alias, id))
       <==> Checked(CMD_PUBLISH, WireProps(props, expiry, None, id))
  {
    if alias.Some? {
      var front := props + ExpiryProps(expiry);
      var q := Property(TOPIC_ALIAS, PInt16(alias.value));
      OccursAppend(TOPIC_ALIAS, props, ExpiryProps(expiry));
      assert !Occurs(TOPIC_ALIAS, ExpiryProps(expiry)) by { assert ExpiryProps(expiry) == [] || ExpiryProps(expiry)[1..] == []; }
      CheckedAppend(CMD_PUBLISH, front, q);
      assert front + AliasProps(None) == front;
      if id == 0 {
        assert front + [q] + IdProps(id) == front + [q] && front + IdProps(id) == front;
      } else {
        var last := Property(SUBSCRIPTION_IDENTIFIER, PVarint(id));
        CheckedAppend(CMD_PUBLISH, front + [q], last);
        CheckedAppend(CMD_PUBLISH, front, last);
        OccursAppend(SUBSCRIPTION_IDENTIFIER, front, [q]);
        assert [q][1..] == [];
      }
    }
  }

  // ---------------------------------------------------------------- processing

  predicate ZeroId(ps: seq<Property>) {
    if ps == [] then false
    else (ps[0].id == SUBSCRIPTION_IDENTIFIER && VarintOf(ps[0].value) == 0) || ZeroId(ps[1..])
  }

  lemma {:induction false} ProcessAppend(limit: nat, r2l: seq<Entry>, topic: Option<Name>, a: seq<Property>, b: seq<Property>)
    ensures
      var (table, r) := Process(limit, r2l, topic, a);
      Process(limit, r2l, topic, a + b) == if r.Refused? then (table, r) else Process(limit, table, r.topic, b)
    decreases |a|
  {
    if a == [] {
      assert a + b == b;
    } else {
      assert (a + b)[1..] == a[1..] + b;
      var alias := Int16Of(a[0].value);
      if PassedOver(a[0].id) || a[0].id == SUBSCRIPTION_IDENTIFIER {
        ProcessAppend(limit, r2l, topic, a[1..], b);
      } else if topic.Some? {
        ProcessAppend(limit, Put(r2l, topic.value, alias), topic, a[1..], b);
      } else {
        ProcessAppend(limit, r2l, ByAlias(r2l, alias), a[1..], b);
      }
    }
  }

  lemma {:induction false} ProcessPlain(limit: nat, r2l: seq<Entry>, topic: Option<Name>, ps: seq<Property>)
    requires Checked(CMD_PUBLISH, ps) && !Occurs(TOPIC_ALIAS, ps)
    ensures Process(limit, r2l, topic, ps) == (r2l, if ZeroId(ps) then Refused(Protocol) else Resolved(topic))
    decreases |ps|
  {
    if ps != [] {
      ProcessPlain(limit, r2l, topic, ps[1..]);
    }
  }

  lemma {:induction false} CheckedPrefix(command: nat, a: seq<Property>, b: seq<Property>)
    requires Checked(command, a + b)
    ensures Checked(command, a)
    decreases |b|
  {
    if b == [] {
      assert a + b == a;
    } else {
      var front := b[..|b| - 1];
      assert a + b == (a + front) + [b[|b| - 1]];
      CheckedAppend(command, a + front, b[|b| - 1]);
      CheckedPrefix(command, a, front);
    }
  }

  /** The properties of a packet have the effect of its alias alone. */
  lemma ProcessWire(limit: nat, r2l: seq<Entry>, head: Head, props: seq<Property>, expiry: nat, id: nat)
    requires !Occurs(TOPIC_ALIAS, props)
    requires Checked(CMD_PUBLISH, WireProps(props, expiry, head.alias, id))
    ensures
      var (table, r) := Process(limit, r2l, head.topic, WireProps(props, expiry, head.alias, id));
      if ZeroId(props) then r == Refused(Protocol)
      else
        && table == Receive(r2l, limit, head).0
        && match Receive(r2l, limit, head).1
           case Some(topic) => r == Resolved(Some(topic))
           case None => r.Refused? || r == Resolved(None)
  {
    var front := props + ExpiryProps(expiry);
    var withAlias := front + AliasProps(head.alias);
    CheckedPrefix(CMD_PUBLISH, withAlias, IdProps(id));
    CheckedPrefix(CMD_PUBLISH, front, AliasProps(head.alias));
    CheckedPrefix(CMD_PUBLISH, props, ExpiryProps(expiry));
    ProcessPlain(limit, r2l, head.topic, props);
    ProcessAppend(limit, r2l, head.topic, props, ExpiryProps(expiry));
    ProcessAppend(limit, r2l, head.topic, front, AliasProps(head.alias));
    ProcessAppend(limit, r2l, head.topic, withAlias, IdProps(id));
    if !ZeroId(props) {
      ProcessExpiry(limit, r2l, head.topic, expiry);
      ProcessAlias(limit, r2l, head);
      var (table, r) := Process(limit, r2l, head.topic, AliasProps(head.alias));
      if r.Resolved? {
        ProcessId(limit, table, r.topic, id);
      }
    }
  }

  /** The alias among the properties of a message. */
  function AliasOf(ps: seq<Property>): nat {
    if ps == [] then 0 else if ps[0].id == TOPIC_ALIAS then Int16Of(ps[0].value) else AliasOf(ps[1..])
  }

  /** With the topic in the packet, an alias is entered for it, if the receiver's limit allows. */
  lemma {:induction false} ProcessTopic(limit: nat, r2l: seq<Entry>, topic: Name, ps: seq<Property>)
    requires Checked(CMD_PUBLISH, ps) && AllWellTyped(ps) && Occurs(TOPIC_ALIAS, ps)
    ensures
      var (table, r) := Process(limit, r2l, Some(topic), ps);
      if ZeroId(ps) || AliasOf(ps) > limit then r.Refused?
      else table == Put(r2l, topic, AliasOf(ps)) && r == Resolved(Some(topic))
    decreases |ps|
  {
    if ps[0].id == TOPIC_ALIAS {
      ProcessPlain(limit, Put(r2l, topic, AliasOf(ps)), Some(topic), ps[1..]);
    } else {
      ProcessTopic(limit, r2l, topic, ps[1..]);
    }
  }

  /** The alias of the message has that effect if none is added. */
  lemma ProcessOwnAlias(limit: nat, r2l: seq<Entry>, topic: Name, props: seq<Property>, expiry: nat, id: nat)
    requires Occurs(TOPIC_ALIAS, props)
    requires AllWellTyped(WireProps(props, expiry, None, id)) && Checked(CMD_PUBLISH, WireProps(props, expiry, None, id))
    ensures
      var (table, r) := Process(limit, r2l, Some(topic), WireProps(props, expiry, None, id));
      if ZeroId(props) || AliasOf(props) > limit then r.Refused?
      else table == Put(r2l, topic, AliasOf(props)) && r == Resolved(Some(topic))
  {
    var front := props + ExpiryProps(expiry);
    assert front + AliasProps(None) == front;
    WireSplits(props, expiry, None, id);
    CheckedPrefix(CMD_PUBLISH, front, IdProps(id));
    CheckedPrefix(CMD_PUBLISH, props, ExpiryProps(expiry));
    ProcessTopic(limit, r2l, topic, props);
    ProcessAppend(limit, r2l, Some(topic), props, ExpiryProps(expiry));
    ProcessAppend(limit, r2l, Some(topic), front, IdProps(id));
    var table := Process(limit, r2l, Some(topic), props).0;
    ProcessExpiry(limit, table, Some(topic), expiry);
    ProcessId(limit, table, Some(topic), id);
  }

  /** A second alias does not pass. */
  lemma TwoAliasesFail(props: seq<Property>, expiry: nat, alias: nat, id: nat)
    requires Occurs(TOPIC_ALIAS, props)
    ensures !Checked(CMD_PUBLISH, WireProps(props, expiry, Some(alias), id))
  {
    var front, q := props + ExpiryProps(expiry), Property(TOPIC_ALIAS, PInt16(alias));
    OccursAppend(TOPIC_ALIAS, props, ExpiryProps(expiry));
    CheckedAppend(CMD_PUBLISH, front, q);
    if Checked(CMD_PUBLISH, WireProps(props, expiry, Some(alias), id)) {
      CheckedPrefix(CMD_PUBLISH, front + [q], IdProps(id));
    }
  }

  lemma ProcessExpiry(limit: nat, r2l: seq<Entry>, topic: Option<Name>, expiry: nat)
    ensures Process(limit, r2l, topic, ExpiryProps(expiry)) == (r2l, Resolved(topic))
  {
  }

  lemma ProcessAlias(limit: nat, r2l: seq<Entry>, head: Head)
    ensures
      var (table, r) := Process(limit, r2l, head.topic, AliasProps(head.alias));
      && table == Receive(r2l, limit, head).0
      && match Receive(r2l, limit, head).1
         case Some(topic) => r == Resolved(Some(topic))
         case None => r.Refused? || r == Resolved(None)
  {
  }

  lemma ProcessId(limit: nat, r2l: seq<Entry>, topic: Option<Name>, id: nat)
    ensures Process(limit, r2l, topic, IdProps(id)) == (r2l, Resolved(topic))
  {
  }

  // ---------------------------------------------------------------- one packet

  /** The client takes the message: what it checks, in terms of the message sent. */
  predicate Deliverable(c: Conn, p: Publish, expiry: nat, id: nat) {
    && c.active
    && Topic.ValidTopic(Text(p.topic))
    && (p.qos > 0 ==> p.mid != 0 && (c.v5 ==> c.quota > 0))
    && (c.v5 ==> Checked(CMD_PUBLISH, WireProps(p.props, expiry, None, id)) && !ZeroId(p.props))
  }

  /** An alias of the message's own is one the receiver takes, and is the only one. */
  predicate AliasFits(c: Conn, props: seq<Property>, added: Option<nat>) {
    c.v5 && Occurs(TOPIC_ALIAS, props) ==> added.None? && AliasOf(props) <= c.limit
  }

  /** The message as the receiving application sees it. */
  function Received(v5: bool, p: Publish, wire: seq<Property>): Publish {
    p.(mid := MidOf(p), props := PropsOf(v5, wire))
  }

  /** The table and the outcome are those of the packet's properties and topic. */
  predicate Takes(c: Conn, r2l: seq<Entry>, topic: Option<Name>, p: Publish, wire: seq<Property>, table: seq<Entry>, o: Outcome) {
    var processed := Process(c.limit, r2l, topic, PropsOf(c.v5, wire));
    && table == processed.0
    && match processed.1
       case Refused(_) => o.Bad?
       case Resolved(None) => o.Bad?
       case Resolved(Some(name)) =>
         if Topic.ValidTopic(Text(name)) then o == Got(Received(c.v5, p.(topic := name), wire)) else o.Bad?
  }

  lemma DecodedFields(c: Conn, r2l: seq<Entry>, topic: Option<Name>, p: Publish, wire: seq<Property>)
    requires Sendable(c.v5, p, wire) && |Body(c.v5, topic, p, wire)| < TWO_28 && |TopicBytes(topic)| < 65536
    ensures
      var decoded := Decode(c, r2l, Command(p), Body(c.v5, topic, p, wire));
      if !c.active || !Readable(c, topic, p, wire) then decoded.1.Bad?
      else Takes(c, r2l, topic, p, wire, decoded.0, decoded.1)
  {
    FieldsAreExact(c, topic, p, wire);
    if c.active && Readable(c, topic, p, wire) {
      BodyHas(c.v5, topic, p, wire);
      FlagsAreExact(p);
      DecodedGood(c, r2l, topic, p, wire, Command(p), Body(c.v5, topic, p, wire));
    } else {
      DecodedBad(c, r2l, p, Body(c.v5, topic, p, wire));
    }
  }

  lemma DecodedBad(c: Conn, r2l: seq<Entry>, p: Publish, s: Bytes)
    requires p.qos <= 2 && (!c.active || ReadFields(c, p.qos, s).Err?)
    ensures Decode(c, r2l, Command(p), s).1.Bad?
  {
    FlagsAreExact(p);
  }

  lemma DecodedGood(c: Conn, r2l: seq<Entry>, topic: Option<Name>, p: Publish, wire: seq<Property>, command: Byte, s: Bytes)
    requires HasFlags(command, p) && p.qos <= 2 && c.active && |p.payload| <= |s| && s[|s| - |p.payload|..] == p.payload
    requires ReadFields(c, p.qos, s) == Ok(Fields(TopicBytes(topic), MidOf(p), PropsOf(c.v5, wire)), |s| - |p.payload|)
    ensures Takes(c, r2l, topic, p, wire, Decode(c, r2l, command, s).0, Decode(c, r2l, command, s).1)
  {
    var f := Fields(TopicBytes(topic), MidOf(p), PropsOf(c.v5, wire));
    DecodedFrom(c, r2l, command, s, f, |s| - |p.payload|);
    FinishIs(c, r2l, p, command, s, f, topic, wire);
  }

  lemma DecodedFrom(c: Conn, r2l: seq<Entry>, command: Byte, s: Bytes, f: Fields, pos: nat)
    requires c.active && ReadFields(c, QosOf(command), s) == Ok(f, pos)
    ensures Decode(c, r2l, command, s) == Resolve(c, r2l, command, s, f, pos)
  {
  }

  /** What becomes of the fields of a message. */
  lemma FinishIs(c: Conn, r2l: seq<Entry>, p: Publish, command: Byte, s: Bytes, f: Fields, topic: Option<Name>,
                 wire: seq<Property>)
    requires HasFlags(command, p) && p.qos <= 2 && f == Fields(TopicBytes(topic), MidOf(p), PropsOf(c.v5, wire))
    requires |p.payload| <= |s| && s[|s| - |p.payload|..] == p.payload
    ensures
      var resolved := Resolve(c, r2l, command, s, f, |s| - |p.payload|);
      Takes(c, r2l, topic, p, wire, resolved.0, resolved.1)
  {
    assert TopicOf(TopicBytes(topic)) == topic;
  }

  /**
   A packet from a sender whose aliases agree with the receiver's: the receiver has exactly the
   message, every field of it, if it takes it, and otherwise refuses it; and the aliases still agree,
   if the message brings no alias of its own or the sender gives out none.
   */
  lemma PublishRoundTrip(c: Conn, l2r: seq<Entry>, r2l: seq<Entry>, max: nat, p: Publish, expiry: nat, id: nat)
    requires InAgreement(l2r, r2l, max) && max <= c.limit
    requires
      var head := HeadOf(c.v5, l2r, max, p.topic).1;
      var wire := WireProps(p.props, expiry, head.alias, id);
      Sendable(c.v5, p, wire) && |Body(c.v5, head.topic, p, wire)| < TWO_28
    ensures
      var (l2r', head) := HeadOf(c.v5, l2r, max, p.topic);
      var wire := WireProps(p.props, expiry, head.alias, id);
      var (r2l', o) := Decode(c, r2l, Command(p), Body(c.v5, head.topic, p, wire));
      if Deliverable(c, p, expiry, id) && AliasFits(c, p.props, head.alias) then
        && o == Got(Received(c.v5, p, wire))
        && (max == 0 || !Occurs(TOPIC_ALIAS, p.props) ==> InAgreement(l2r', r2l', max))
      else o.Bad?
  {
    var (l2r', head) := HeadOf(c.v5, l2r, max, p.topic);
    HeadAgrees(c, l2r, r2l, max, p.topic);
    if c.v5 && Occurs(TOPIC_ALIAS, p.props) {
      OwnAliasTrip(c, r2l, head, p, expiry, id);
    } else {
      PlainTrip(c, r2l, head, p, expiry, id);
    }
  }

  /** The message brings no alias. */
  lemma PlainTrip(c: Conn, r2l: seq<Entry>, head: Head, p: Publish, expiry: nat, id: nat)
    requires !(c.v5 && Occurs(TOPIC_ALIAS, p.props))
    requires
      && (c.v5 || head == Head(Some(p.topic), None)) && (head.topic == None || head.topic == Some(p.topic))
      && (head.alias.Some? ==> head.alias.value != 0) && Receive(r2l, c.limit, head).1 == Some(p.topic)
    requires
      var wire := WireProps(p.props, expiry, head.alias, id);
      Sendable(c.v5, p, wire) && |Body(c.v5, head.topic, p, wire)| < TWO_28
    ensures
      var wire := WireProps(p.props, expiry, head.alias, id);
      var (r2l', o) := Decode(c, r2l, Command(p), Body(c.v5, head.topic, p, wire));
      if Deliverable(c, p, expiry, id) then o == Got(Received(c.v5, p, wire)) && r2l' == Receive(r2l, c.limit, head).0
      else o.Bad?
  {
    var wire := WireProps(p.props, expiry, head.alias, id);
    DecodedFields(c, r2l, head.topic, p, wire);
    if c.v5 {
      CheckedWithAlias(p.props, expiry, head.alias, id);
      if Checked(CMD_PUBLISH, wire) {
        ProcessWire(c.limit, r2l, head, p.props, expiry, id);
      }
    }
  }

  /** The message brings its own alias. */
  lemma OwnAliasTrip(c: Conn, r2l: seq<Entry>, head: Head, p: Publish, expiry: nat, id: nat)
    requires c.v5 && Occurs(TOPIC_ALIAS, p.props)
    requires head.alias.Some? || head.topic == Some(p.topic)
    requires head.topic.Some? ==> head.topic == Some(p.topic)
    requires
      var wire := WireProps(p.props, expiry, head.alias, id);
      Sendable(c.v5, p, wire) && |Body(c.v5, head.topic, p, wire)| < TWO_28
    ensures
      var wire := WireProps(p.props, expiry, head.alias, id);
      var (r2l', o) := Decode(c, r2l, Command(p), Body(c.v5, head.topic, p, wire));
      if Deliverable(c, p, expiry, id) && AliasFits(c, p.props, head.alias) then
        o == Got(Received(c.v5, p, wire)) && r2l' == Put(r2l, p.topic, AliasOf(p.props))
      else o.Bad?
  {
    var wire := WireProps(p.props, expiry, head.alias, id);
    DecodedFields(c, r2l, head.topic, p, wire);
    if head.alias.Some? {
      TwoAliasesFail(p.props, expiry, head.alias.value, id);
    } else if Checked(CMD_PUBLISH, wire) {
      ProcessOwnAlias(c.limit, r2l, p.topic, p.props, expiry, id);
    }
  }

  /** What the sender puts in front resolves to its topic. */
  lemma HeadAgrees(c: Conn, l2r: seq<Entry>, r2l: seq<Entry>, max: nat, topic: Name)
    requires InAgreement(l2r, r2l, max) && max <= c.limit
    ensures
      var (l2r', head) := HeadOf(c.v5, l2r, max, topic);
      && (head.topic == None || head.topic == Some(topic))
      && (c.v5 || head == Head(Some(topic), None))
      && (head.alias.Some? || head.topic == Some(topic))
      && (head.alias.Some? ==> head.alias.value != 0)
      && Receive(r2l, c.limit, head).1 == Some(topic)
      && InAgreement(l2r', Receive(r2l, c.limit, head).0, max)
  {
    if c.v5 {
      PublishAgrees(l2r, r2l, max, c.limit, topic);
      ByTopicIsEntry(l2r, topic);
    }
  }

  /** The bytes sent are, to the packet reader of the other side, one packet: this command and this body. */
  lemma FramedIsRead(maximumPacketSize: nat, p: Publish, body: Bytes, before: seq<F.Packet>)
    requires p.qos <= 2 && Framed(maximumPacketSize, Command(p), body).Packet?
    ensures F.FeedAll(F.Parse(F.Idle, before), Framed(maximumPacketSize, Command(p), body).bytes)
         == F.Parse(F.Idle, before + [F.Packet(Command(p), body)])
  {
    F.WrittenIsFrame(Command(p), body);
    F.FrameFed([Command(p)] + Varint(|body|) + body, F.Packet(Command(p), body), before);
  }

  // ---------------------------------------------------------------- a connection

  datatype Item = Item(p: Publish, expiry: nat, id: nat)

  function WireOf(item: Item, alias: Option<nat>): seq<Property> { WireProps(item.p.props, item.expiry, alias, item.id) }

  function BodyOf(v5: bool, head: Head, item: Item): Bytes { Body(v5, head.topic, item.p, WireOf(item, head.alias)) }

  /** What may be handed to the sender: an alias of the message's own only to one that gives out none. */
  predicate Offered(c: Conn, max: nat, item: Item, alias: Option<nat>) {
    && Sendable(c.v5, item.p, WireOf(item, alias))
    && (Occurs(TOPIC_ALIAS, item.p.props) ==> max == 0 && AliasFits(c, item.p.props, alias))
    && Deliverable(c, item.p, item.expiry, item.id)
  }

  /** Everything sent over a connection: for each message what the receiver makes of it, None if it is not sent. */
  function Exchange(c: Conn, l2r: seq<Entry>, r2l: seq<Entry>, max: nat, maximumPacketSize: nat, items: seq<Item>)
      : seq<Option<Outcome>>
    requires forall i | 0 <= i < |items| :: items[i].p.qos <= 2
    decreases |items|
  {
    if items == [] then []
    else
      var (l2r', head) := HeadOf(c.v5, l2r, max, items[0].p.topic);
      var body := BodyOf(c.v5, head, items[0]);
      if Framed(maximumPacketSize, Command(items[0].p), body).NotSent? then
        [None] + Exchange(c, l2r', r2l, max, maximumPacketSize, items[1..])
      else
        var (r2l', o) := Decode(c, r2l, Command(items[0].p), body);
        [Some(o)] + Exchange(c, l2r', r2l', max, maximumPacketSize, items[1..])
  }

  /** Every message is one that may be offered, and none that introduces an alias is dropped for its size. */
  ghost predicate Orderly(c: Conn, l2r: seq<Entry>, max: nat, maximumPacketSize: nat, items: seq<Item>)
    decreases |items|
  {
    if items == [] then true
    else
      var (l2r', head) := HeadOf(c.v5, l2r, max, items[0].p.topic);
      && Offered(c, max, items[0], head.alias)
      && (Framed(maximumPacketSize, Command(items[0].p), BodyOf(c.v5, head, items[0])).NotSent? ==> l2r' == l2r)
      && Orderly(c, l2r', max, maximumPacketSize, items[1..])
  }

  /** The message itself, with the properties added on the way out. */
  ghost predicate Faithful(v5: bool, item: Item, got: Option<Outcome>) {
    got.Some? ==> exists alias :: got.value == Got(Received(v5, item.p, WireOf(item, alias)))
  }

  ghost predicate AllFaithful(v5: bool, items: seq<Item>, got: seq<Option<Outcome>>) {
    && |got| == |items|
    && (items == [] || (Faithful(v5, items[0], got[0]) && AllFaithful(v5, items[1..], got[1..])))
  }

  /** One message that is sent. */
  lemma SentIsFaithful(c: Conn, l2r: seq<Entry>, r2l: seq<Entry>, max: nat, item: Item)
    requires InAgreement(l2r, r2l, max) && max <= c.limit
    requires
      var head := HeadOf(c.v5, l2r, max, item.p.topic).1;
      Offered(c, max, item, head.alias) && |BodyOf(c.v5, head, item)| < TWO_28
    ensures
      var (l2r', head) := HeadOf(c.v5, l2r, max, item.p.topic);
      var (r2l', o) := Decode(c, r2l, Command(item.p), BodyOf(c.v5, head, item));
      Faithful(c.v5, item, Some(o)) && InAgreement(l2r', r2l', max)
  {
    PublishRoundTrip(c, l2r, r2l, max, item.p, item.expiry, item.id);
    var (l2r', head) := HeadOf(c.v5, l2r, max, item.p.topic);
    var (r2l', o) := Decode(c, r2l, Command(item.p), BodyOf(c.v5, head, item));
    assert o == Got(Received(c.v5, item.p, WireOf(item, head.alias)));
  }

  lemma {:induction false} ExchangeFrom(c: Conn, l2r: seq<Entry>, r2l: seq<Entry>, max: nat, maximumPacketSize: nat,
                                        items: seq<Item>)
    requires forall i | 0 <= i < |items| :: items[i].p.qos <= 2
    requires InAgreement(l2r, r2l, max) && max <= c.limit && Orderly(c, l2r, max, maximumPacketSize, items)
    ensures AllFaithful(c.v5, items, Exchange(c, l2r, r2l, max, maximumPacketSize, items))
    decreases |items|
  {
    if items != [] {
      var item := items[0];
      var (l2r', head) := HeadOf(c.v5, l2r, max, item.p.topic);
      if Framed(maximumPacketSize, Command(item.p), BodyOf(c.v5, head, item)).NotSent? {
        ExchangeFrom(c, l2r', r2l, max, maximumPacketSize, items[1..]);
      } else {
        SentIsFaithful(c, l2r, r2l, max, item);
        var (r2l', o) := Decode(c, r2l, Command(item.p), BodyOf(c.v5, head, item));
        ExchangeFrom(c, l2r', r2l', max, maximumPacketSize, items[1..]);
      }
    }
  }

  lemma {:induction false} AllFaithfulAt(v5: bool, items: seq<Item>, got: seq<Option<Outcome>>)
    requires AllFaithful(v5, items, got)
    ensures |got| == |items| && forall i | 0 <= i < |items| :: Faithful(v5, items[i], got[i])
  {
    if items != [] {
      AllFaithfulAt(v5, items[1..], got[1..]);
      forall i | 0 <= i < |items|
        ensures Faithful(v5, items[i], got[i])
      {
        if i > 0 {
          assert items[i] == items[1..][i - 1] && got[i] == got[1..][i - 1];
        }
      }
    }
  }

  /**
   Over a new connection, whatever the receiver's alias table still holds, every message that is
   sent arrives as it was, in order, if no message that introduces an alias is dropped for its size.
   */
  lemma ConnectionIsFaithful(c: Conn, stale: seq<Entry>, max: nat, maximumPacketSize: nat, items: seq<Item>)
    requires forall i | 0 <= i < |items| :: items[i].p.qos <= 2
    requires max <= c.limit && Orderly(c, [], max, maximumPacketSize, items)
    ensures
      var got := Exchange(c, [], stale, max, maximumPacketSize, items);
      |got| == |items| && forall i | 0 <= i < |items| :: Faithful(c.v5, items[i], got[i])
  {
    ExchangeFrom(c, [], stale, max, maximumPacketSize, items);
    AllFaithfulAt(c.v5, items, Exchange(c, [], stale, max, maximumPacketSize, items));
  }

  /** A message sent with an alias alone arrives with its topic exactly if the receiver's table says so. */
  lemma AliasAlone(c: Conn, r2l: seq<Entry>, max: nat, item: Item, head: Head)
    requires c.v5 && head.topic == None && head.alias.Some? && 0 < head.alias.value <= max <= c.limit
    requires Offered(c, max, item, head.alias) && |BodyOf(c.v5, head, item)| < TWO_28
    ensures
      var o := Decode(c, r2l, Command(item.p), BodyOf(c.v5, head, item)).1;
      Faithful(c.v5, item, Some(o)) <==> ByAlias(r2l, head.alias.value) == Some(item.p.topic)
  {
    var wire := WireOf(item, head.alias);
    CheckedWithAlias(item.p.props, item.expiry, head.alias, item.id);
    DecodedFields(c, r2l, None, item.p, wire);
    ProcessWire(c.limit, r2l, head, item.p.props, item.expiry, item.id);
    var o := Decode(c, r2l, Command(item.p), BodyOf(c.v5, head, item)).1;
    if ByAlias(r2l, head.alias.value) == Some(item.p.topic) {
      assert o == Got(Received(c.v5, item.p, wire));
    } else {
      assert o.Got? ==> o.message.topic != item.p.topic;
    }
  }

  /** A message that introduces an alias and is too long, and the next one to the same topic. */
  ghost predicate Dropped(c: Conn, l2r: seq<Entry>, max: nat, maximumPacketSize: nat, dropped: Item, item: Item) {
    var (after, first) := HeadOf(c.v5, l2r, max, dropped.p.topic);
    var head := HeadOf(c.v5, after, max, item.p.topic).1;
    && ByTopic(l2r, dropped.p.topic).None? && |l2r| < max && item.p.topic == dropped.p.topic
    && dropped.p.qos <= 2 && item.p.qos <= 2
    && Framed(maximumPacketSize, Command(dropped.p), BodyOf(c.v5, first, dropped)).NotSent?
    && !Framed(maximumPacketSize, Command(item.p), BodyOf(c.v5, head, item)).NotSent?
    && Offered(c, max, item, head.alias) && |BodyOf(c.v5, head, item)| < TWO_28
  }

  lemma DroppedHead(c: Conn, l2r: seq<Entry>, max: nat, topic: Name)
    requires c.v5 && ByTopic(l2r, topic).None? && |l2r| < max
    ensures
      var after := HeadOf(c.v5, l2r, max, topic).0;
      HeadOf(c.v5, after, max, topic).1 == Head(None, Some(|l2r| + 1))
  {
    LastEntryFound(l2r, Entry(|l2r| + 1, topic));
  }

  lemma {:induction false} ExchangeLast(c: Conn, l2r: seq<Entry>, r2l: seq<Entry>, max: nat, maximumPacketSize: nat,
                                        item: Item, head: Head)
    requires item.p.qos <= 2 && head == HeadOf(c.v5, l2r, max, item.p.topic).1
    requires !Framed(maximumPacketSize, Command(item.p), BodyOf(c.v5, head, item)).NotSent?
    ensures Exchange(c, l2r, r2l, max, maximumPacketSize, [item])
         == [Some(Decode(c, r2l, Command(item.p), BodyOf(c.v5, head, item)).1)]
  {
    var l2r', r2l' := HeadOf(c.v5, l2r, max, item.p.topic).0, Decode(c, r2l, Command(item.p), BodyOf(c.v5, head, item)).0;
    assert [item][1..] == [] && Exchange(c, l2r', r2l', max, maximumPacketSize, []) == [];
  }

  lemma {:induction false} ExchangeDropped(c: Conn, l2r: seq<Entry>, r2l: seq<Entry>, max: nat, maximumPacketSize: nat,
                                           dropped: Item, items: seq<Item>, head: Head)
    requires dropped.p.qos <= 2 && forall i | 0 <= i < |items| :: items[i].p.qos <= 2
    requires head == HeadOf(c.v5, l2r, max, dropped.p.topic).1
    requires Framed(maximumPacketSize, Command(dropped.p), BodyOf(c.v5, head, dropped)).NotSent?
    ensures Exchange(c, l2r, r2l, max, maximumPacketSize, [dropped] + items)
         == [None] + Exchange(c, HeadOf(c.v5, l2r, max, dropped.p.topic).0, r2l, max, maximumPacketSize, items)
  {
    assert ([dropped] + items)[1..] == items;
  }

  /**
   The condition is needed. The sender enters the alias before it finds the packet too long: the
   next message to the same topic, sent with the alias alone, arrives with that topic only if the
   receiver's table happens to say so already.
   */
  lemma DroppedPacketLosesAlias(c: Conn, l2r: seq<Entry>, r2l: seq<Entry>, max: nat, maximumPacketSize: nat,
                                dropped: Item, item: Item)
    requires c.v5 && max <= c.limit && Dropped(c, l2r, max, maximumPacketSize, dropped, item)
    ensures
      var got := Exchange(c, l2r, r2l, max, maximumPacketSize, [dropped] + [item]);
      && |got| == 2 && got[0] == None && got[1].Some?
      && (Faithful(c.v5, item, got[1]) <==> ByAlias(r2l, |l2r| + 1) == Some(item.p.topic))
  {
    DroppedHead(c, l2r, max, dropped.p.topic);
    var (after, first) := HeadOf(c.v5, l2r, max, dropped.p.topic);
    ExchangeDropped(c, l2r, r2l, max, maximumPacketSize, dropped, [item], first);
    ExchangeLast(c, after, r2l, max, maximumPacketSize, item, Head(None, Some(|l2r| + 1)));
    AliasAlone(c, r2l, max, item, Head(None, Some(|l2r| + 1)));
  }

  lemma {:induction false} LastEntryFound(l2r: seq<Entry>, e: Entry)
    requires ByTopic(l2r, e.topic).None?
    ensures ByTopic(l2r + [e], e.topic) == Some(e.alias)
  {
    if l2r != [] {
      LastEntryFound(l2r[1..], e);
      assert (l2r + [e])[1..] == l2r[1..] + [e];
    }
  }
}
