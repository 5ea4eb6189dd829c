/** How a client takes a PUBLISH packet apart. */
module PublishIn {
  import opened Basics
  import opened Codec
  import opened Properties
  import opened Alias
  import opened PublishCodec
  import In = PacketIn
  import Topic
  import TopicScan
  import Utf8

  /** What handle__publish looks at in the client. */
  datatype Conn = Conn(active: bool, v5: bool, quota: nat, limit: nat)

  datatype Fields = Fields(name: Bytes, mid: nat, props: seq<Property>)

  datatype Processed = Resolved(topic: Option<Name>) | Refused(error: Error)

  datatype Outcome = Got(message: Publish) | Bad(error: Error)

  // ---------------------------------------------------------------- fields of the packet

  function QosOf(command: Byte): nat { command / 2 % 4 }
  predicate DupOf(command: Byte) { command / 8 % 2 == 1 }
  predicate RetainOf(command: Byte) { command % 2 == 1 }

  function ReadMid(c: Conn, qos: nat, s: Bytes, pos: nat): Read<nat> {
    if qos == 0 then Ok(0, pos)
    else if c.v5 && c.quota == 0 then Err(Protocol)
    else
      match ReadUint16(s, pos)
      case Err(e) => Err(e)
      case Ok(mid, end) => if mid == 0 then Err(Protocol) else Ok(mid, end)
  }

  function ReadProps(c: Conn, s: Bytes, pos: nat): Read<seq<Property>> {
    if c.v5 then In.ReadChecked(CMD_PUBLISH, s, pos) else Ok([], pos)
  }

  /** Topic, packet identifier and properties; the payload is what follows them. */
  function ReadFields(c: Conn, qos: nat, s: Bytes): Read<Fields> {
    match ReadString(s, 0)
    case Err(e) => Err(e)
    case Ok(name, afterName) =>
      if !c.v5 && name == [] then Err(Protocol)
      else
        match ReadMid(c, qos, s, afterName)
        case Err(e) => Err(e)
        case Ok(mid, afterMid) =>
          match ReadProps(c, s, afterMid)
          case Err(e) => Err(e)
          case Ok(props, end) => Ok(Fields(name, mid, props), end)
  }

  // ---------------------------------------------------------------- meaning of the properties

  function TopicOf(name: Bytes): Option<Name> { if name != [] && IsString(name) then Some(name) else None }

  predicate PassedOver(id: nat) {
    || id == PAYLOAD_FORMAT_INDICATOR || id == MESSAGE_EXPIRY_INTERVAL || id == CONTENT_TYPE
    || id == RESPONSE_TOPIC || id == CORRELATION_DATA || id == USER_PROPERTY
  }

  function Int16Of(v: Value): nat { if v.PInt16? then v.int16 else 0 }
  function VarintOf(v: Value): nat { if v.PVarint? then v.varint else 0 }

  /** property__process_publish: the topic after the aliases have been looked at. */
  function Process(limit: nat, r2l: seq<Entry>, topic: Option<Name>, ps: seq<Property>): (seq<Entry>, Processed)
    decreases |ps|
  {
    if ps == [] then (r2l, Resolved(topic))
    else if PassedOver(ps[0].id) then Process(limit, r2l, topic, ps[1..])
    else if ps[0].id == SUBSCRIPTION_IDENTIFIER then
      if VarintOf(ps[0].value) == 0 then (r2l, Refused(Protocol)) else Process(limit, r2l, topic, ps[1..])
    else if ps[0].id == TOPIC_ALIAS then
      var alias := Int16Of(ps[0].value);
      if alias == 0 || alias > limit then (r2l, Refused(TopicAliasInvalid))
      else if topic.Some? then Process(limit, Put(r2l, topic.value, alias), topic, ps[1..])
      else if ByAlias(r2l, alias).Some? then Process(limit, r2l, ByAlias(r2l, alias), ps[1..])
      else (r2l, Refused(Protocol))
    else (r2l, Refused(Protocol))
  }

  function Rest(s: Bytes, pos: nat): Bytes { if pos <= |s| then s[pos..] else [] }

  function Finish(command: Byte, s: Bytes, f: Fields, pos: nat, topic: Option<Name>): Outcome {
    if topic.None? then Bad(Protocol)
    else if !Topic.ValidTopic(Text(topic.value)) then Bad(Malformed)
    else if QosOf(command) == 3 then Bad(Protocol)
    else Got(Publish(topic.value, f.mid, QosOf(command), RetainOf(command), DupOf(command), f.props, Rest(s, pos)))
  }

  /** handle__publish: the alias table afterwards, and the message or the error. */
  function Decode(c: Conn, r2l: seq<Entry>, command: Byte, s: Bytes): (seq<Entry>, Outcome) {
    if !c.active then (r2l, Bad(Protocol))
    else
      match ReadFields(c, QosOf(command), s)
      case Err(e) => (r2l, Bad(e))
      case Ok(f, pos) => Resolve(c, r2l, command, s, f, pos)
  }

  /** The fields have been read, and end at pos. */
  function Resolve(c: Conn, r2l: seq<Entry>, command: Byte, s: Bytes, f: Fields, pos: nat): (seq<Entry>, Outcome) {
    var processed := Process(c.limit, r2l, TopicOf(f.name), f.props);
    (processed.0,
     match processed.1
     case Refused(e) => Bad(e)
     case Resolved(topic) => Finish(command, s, f, pos, topic))
  }

  // ---------------------------------------------------------------- the code

  method ProcessPublish(aliases: Aliases, props: seq<Property>, name: Option<Name>)
      returns (status: Status, topic: Option<Name>)
    modifies aliases
    ensures aliases.l2r == old(aliases.l2r) && aliases.maxL2r == old(aliases.maxL2r)
    ensures
      var (table, r) := Process(aliases.maxL2r, old(aliases.r2l), name, props);
      && aliases.r2l == table
      && match r
         case Refused(e) => status == Failed(e)
         case Resolved(t) => status == Success && topic == t
  {
    topic := name;
    var i := 0;
    while i < |props|
      invariant i <= |props|
      invariant aliases.l2r == old(aliases.l2r) && aliases.maxL2r == old(aliases.maxL2r)
      invariant Process(aliases.maxL2r, old(aliases.r2l), name, props)
             == Process(aliases.maxL2r, aliases.r2l, topic, props[i..])
    {
      var id, value := props[i].id, props[i].value;
      assert props[i..][1..] == props[i + 1..];
      if PassedOver(id) {
      } else if id == SUBSCRIPTION_IDENTIFIER {
        if VarintOf(value) == 0 {
          status := Failed(Protocol);
          return;
        }
      } else if id == TOPIC_ALIAS {
        var alias := Int16Of(value);
        if alias == 0 || alias > aliases.maxL2r {
          status := Failed(TopicAliasInvalid);
          return;
        }
        if topic.Some? {
          aliases.AddR2l(topic.value, alias);
        } else {
          topic := aliases.FindByAlias(alias);
          if topic.None? {
            status := Failed(Protocol);
            return;
          }
        }
      } else {
        status := Failed(Protocol);
        return;
      }
      i := i + 1;
    }
    status := Success;
  }

  method GetFields(c: Conn, packet: In.PacketIn, qos: nat) returns (status: Status, f: Fields)
    requires packet.pos == 0 && |packet.payload| < TWO_28
    modifies packet
    ensures In.Agrees(ReadFields(c, qos, packet.payload), status, f, packet.pos)
  {
    f := Fields([], 0, []);
    var name, mid: nat, props := [], 0, [];
    status, name := packet.GetString();
    if status != Success {
      return;
    }
    if !c.v5 && |name| == 0 {
      status := Failed(Protocol);
      return;
    }
    if qos > 0 {
      if c.v5 && c.quota == 0 {
        status := Failed(Protocol);
        return;
      }
      status, mid := packet.GetUint16();
      if status != Success {
        return;
      }
      if mid == 0 {
        status := Failed(Protocol);
        return;
      }
    }
    if c.v5 {
      status, props := packet.GetProperties(CMD_PUBLISH);
      if status != Success {
        return;
      }
    }
    f := Fields(name, mid, props);
  }

  method HandlePublish(c: Conn, aliases: Aliases, command: Byte, packet: In.PacketIn) returns (o: Outcome)
    requires packet.pos == 0 && |packet.payload| < TWO_28
    requires c.limit == aliases.maxL2r
    modifies packet, aliases
    ensures aliases.l2r == old(aliases.l2r) && aliases.maxL2r == old(aliases.maxL2r)
    ensures (aliases.r2l, o) == Decode(c, old(aliases.r2l), command, packet.payload)
  {
    if !c.active {
      return Bad(Protocol);
    }
    var status, f := GetFields(c, packet, QosOf(command));
    if status != Success {
      return Bad(status.error);
    }
    var topic := TopicOf(f.name);
    if c.v5 {
      status, topic := ProcessPublish(aliases, f.props, topic);
      if status != Success {
        return Bad(status.error);
      }
    }
    if topic.None? {
      return Bad(Protocol);
    }
    NameIsText(topic.value);
    var ok := TopicScan.PubTopicCheck(Text(topic.value));
    if !ok {
      return Bad(Malformed);
    }
    var payload := Rest(packet.payload, packet.pos);
    if QosOf(command) == 3 {
      return Bad(Protocol);
    }
    o := Got(Publish(topic.value, f.mid, QosOf(command), RetainOf(command), DupOf(command), f.props, payload));
  }

  // ---------------------------------------------------------------- topics are C strings

  lemma {:induction false} ValidHasNoNul(s: Bytes, i: nat, k: nat)
    requires i <= k < |s| && Utf8.ValidFrom(s, i)
    ensures s[k] != 0
    decreases |s| - i
  {
    var (c, n) := Utf8.CharAt(s, i).value;
    if k >= i + n {
      ValidHasNoNul(s, i + n, k);
    } else {
      CharHasNoNul(s, i, k);
    }
  }

  lemma CharHasNoNul(s: Bytes, i: nat, k: nat)
    requires i < |s| && Utf8.CharAt(s, i).Some? && i <= k < i + Utf8.CharAt(s, i).value.1
    ensures k < |s| && s[k] != 0
  {
    var (n, bits) := Utf8.Lead(s[i]).value;
    if k > i {
      ContinuedHasNoNul(s, i + 1, n - 1, bits, k);
    }
  }

  lemma {:induction false} ContinuedHasNoNul(s: Bytes, i: nat, n: nat, c: nat, k: nat)
    requires i + n <= |s| && Utf8.Continue(s, i, n, c).Some? && i <= k < i + n
    ensures s[k] != 0
    decreases n
  {
    if k > i {
      ContinuedHasNoNul(s, i + 1, n - 1, c * 64 + s[i] % 64, k);
    }
  }

  lemma NameIsText(name: Name)
    ensures Topic.NulFree(Text(name))
  {
    forall k | 0 <= k < |name|
      ensures name[k] != 0
    {
      ValidHasNoNul(name, 0, k);
    }
  }
}
