/** PUBLISH packets: how a message becomes bytes, and how a client takes the bytes apart. */
module PublishCodec {
  import opened Basics
  import opened Codec
  import opened ItemList
  import opened Properties
  import opened Alias
  import Out = PacketOut

  datatype Publish = Publish(topic: Name, mid: nat, qos: nat, retain: bool, dup: bool,
                             props: seq<Property>, payload: Bytes)

  // ---------------------------------------------------------------- the bytes of a message

  const MSG_EXPIRY_INFINITE := 0xFFFF_FFFF

  function Bit(b: bool): nat { if b then 1 else 0 }

  function Command(p: Publish): Byte
    requires p.qos <= 2
  {
    CMD_PUBLISH + 8 * Bit(p.dup) + 2 * p.qos + Bit(p.retain)
  }

  function ExpiryProps(expiry: nat): seq<Property> {
    if 0 < expiry && expiry != MSG_EXPIRY_INFINITE then [Property(MESSAGE_EXPIRY_INTERVAL, PInt32(expiry))] else []
  }

  function AliasProps(alias: Option<nat>): seq<Property> {
    if alias.Some? then [Property(TOPIC_ALIAS, PInt16(alias.value))] else []
  }

  function IdProps(id: nat): seq<Property> {
    if id != 0 then [Property(SUBSCRIPTION_IDENTIFIER, PVarint(id))] else []
  }

  /** The properties of the packet: those of the message, then those added on the way out. */
  function WireProps(props: seq<Property>, expiry: nat, alias: Option<nat>, id: nat): seq<Property> {
    props + ExpiryProps(expiry) + AliasProps(alias) + IdProps(id)
  }

  function TopicBytes(topic: Option<Name>): Bytes { if topic.Some? then topic.value else [] }

  function MidBytes(p: Publish): Bytes { if p.qos > 0 then Uint16(p.mid) else [] }

  function PropBytes(v5: bool, wire: seq<Property>): Bytes { if v5 then Written(wire) else [] }

  function Body(v5: bool, topic: Option<Name>, p: Publish, wire: seq<Property>): Bytes {
    Binary(TopicBytes(topic)) + MidBytes(p) + PropBytes(v5, wire) + p.payload
  }

  datatype Sent = Packet(bytes: Bytes) | NotSent(error: Error)

  /** The packet for a body, unless it is too long for the receiver or for the format. */
  function Framed(maximumPacketSize: nat, command: Byte, body: Bytes): Sent {
    if maximumPacketSize != 0 && 1 + |body| + VarintBytes(|body|) > maximumPacketSize then NotSent(Oversize)
    else if |body| >= TWO_28 then NotSent(PayloadSize)
    else Packet([command] + Varint(|body|) + body)
  }

  function HeadOf(v5: bool, l2r: seq<Entry>, max: nat, topic: Name): (seq<Entry>, Head) {
    if v5 then Send(l2r, max, topic) else (l2r, Head(Some(topic), None))
  }

  /** The values are in the range of their C types. */
  predicate Typed(v5: bool, p: Publish, wire: seq<Property>) {
    && |p.topic| < 65536 && p.qos <= 2 && p.mid < 65536
    && |p.payload| < TWO_28
    && (v5 ==> AllWellTyped(wire))
  }

  /** And the property length is in the range of the format. */
  predicate Sendable(v5: bool, p: Publish, wire: seq<Property>) {
    Typed(v5, p, wire) && (v5 ==> |PropertiesBytes(wire)| < TWO_28)
  }

  // ---------------------------------------------------------------- the size of the buffer

  /** The property length as send__real_publish has it, in 32 bit arithmetic. */
  function PropLen(props: seq<Property>, expiry: nat, alias: Option<nat>, id: nat): nat {
    |PropertiesBytes(WireProps(props, expiry, alias, id))| % TWO_32
  }

  /** Bytes it reserves for a body: a property length that takes more than four bytes is not counted. */
  function Reserved(v5: bool, head: Head, p: Publish, expiry: nat, id: nat): nat {
    var proplen := PropLen(p.props, expiry, head.alias, id);
    2 + |TopicBytes(head.topic)| + |MidBytes(p)| + |p.payload|
    + if v5 && VarintBytes(proplen) <= 4 then proplen + VarintBytes(proplen) else 0
  }

  /** The properties it writes: those of the message and the expiry are left out if the length takes more than four bytes. */
  function PropsWritten(props: seq<Property>, expiry: nat, alias: Option<nat>, id: nat): seq<Property> {
    if VarintBytes(PropLen(props, expiry, alias, id)) > 4 then WireProps([], 0, alias, id)
    else WireProps(props, expiry, alias, id)
  }

  /** And its length and they. */
  function PropBytesWritten(props: seq<Property>, expiry: nat, alias: Option<nat>, id: nat): Bytes {
    Varint(PropLen(props, expiry, alias, id)) + PropertiesBytes(PropsWritten(props, expiry, alias, id))
  }

  function BodyWritten(v5: bool, head: Head, p: Publish, expiry: nat, id: nat): Bytes {
    Binary(TopicBytes(head.topic)) + MidBytes(p)
    + (if v5 then PropBytesWritten(p.props, expiry, head.alias, id) else [])
    + p.payload
  }

  lemma PropsFit(props: seq<Property>, expiry: nat, alias: Option<nat>, id: nat)
    ensures
      var wire := WireProps(props, expiry, alias, id);
      var proplen := PropLen(props, expiry, alias, id);
      var written := |PropBytesWritten(props, expiry, alias, id)|;
      var reserved := if VarintBytes(proplen) <= 4 then proplen + VarintBytes(proplen) else 0;
      && (|PropertiesBytes(wire)| < TWO_28 ==> written == reserved && PropBytesWritten(props, expiry, alias, id) == Written(wire))
      && (|PropertiesBytes(wire)| >= TWO_28 ==> written > reserved)
  {
    VarintLength(PropLen(props, expiry, alias, id));
  }

  /**
   The bytes written are those reserved if and only if the properties are short enough for the format;
   otherwise more are written than reserved.
   */
  lemma BufferFitsExactly(v5: bool, head: Head, p: Publish, expiry: nat, id: nat)
    ensures
      var wire := WireProps(p.props, expiry, head.alias, id);
      var written := BodyWritten(v5, head, p, expiry, id);
      && |written| >= Reserved(v5, head, p, expiry, id)
      && (|written| == Reserved(v5, head, p, expiry, id) <==> !v5 || |PropertiesBytes(wire)| < TWO_28)
      && (|written| == Reserved(v5, head, p, expiry, id) ==> written == Body(v5, head.topic, p, wire))
  {
    PropsFit(p.props, expiry, head.alias, id);
    assert |MidBytes(p)| == if p.qos > 0 then 2 else 0;
  }

  // ---------------------------------------------------------------- sending

  /** send__real_publish up to the queueing of the packet, as the broker is built. */
  method RealPublish(aliases: Aliases, v5: bool, maximumPacketSize: nat, p: Publish, expiry: nat, id: nat)
      returns (status: Status, packet: Out.PacketOut?)
    requires Sendable(v5, p, WireProps(p.props, expiry, HeadOf(v5, aliases.l2r, aliases.maxL2r, p.topic).1.alias, id))
    modifies aliases
    ensures aliases.maxL2r == old(aliases.maxL2r) && aliases.r2l == old(aliases.r2l)
    ensures
      var (l2r, head) := HeadOf(v5, old(aliases.l2r), old(aliases.maxL2r), p.topic);
      && aliases.l2r == l2r
      && match Framed(maximumPacketSize, Command(p), Body(v5, head.topic, p, WireProps(p.props, expiry, head.alias, id)))
         case NotSent(e) => status == Failed(e)
         case Packet(bytes) =>
           status == Success && packet != null && packet.Valid() && packet.Filled() == bytes && packet.Room() == 0
  {
    packet := null;
    var head := Head(Some(p.topic), None);
    if v5 {
      head := aliases.Outgoing(p.topic);
    }
    BufferFitsExactly(v5, head, p, expiry, id);
    var packetlen, proplen := PacketLength(v5, head, p, expiry, id);
    if maximumPacketSize != 0 && 1 + packetlen + VarintBytes(packetlen) > maximumPacketSize {
      status := Failed(Oversize);
      return;
    }
    status, packet := Out.Alloc(Command(p), packetlen);
    if status != Success {
      return;
    }
    WriteBody(packet, v5, head, p, expiry, id, proplen);
  }

  /** The length reserved for the body, and the property length. */
  method PacketLength(v5: bool, head: Head, p: Publish, expiry: nat, id: nat) returns (packetlen: nat, proplen: nat)
    requires Typed(v5, p, WireProps(p.props, expiry, head.alias, id))
    requires head.topic.Some? ==> head.topic.value == p.topic
    ensures packetlen == Reserved(v5, head, p, expiry, id) < TWO_32
    ensures v5 ==> proplen == PropLen(p.props, expiry, head.alias, id)
  {
    packetlen := 2 + (if head.topic.Some? then |head.topic.value| else 0) + |p.payload|;
    if p.qos > 0 {
      packetlen := packetlen + 2;
    }
    proplen := 0;
    if v5 {
      proplen := PropertyLength(p.props, expiry, head.alias, id);
      var varbytes := VarintBytes(proplen);
      if varbytes > 4 {
      } else {
        packetlen := packetlen + proplen + varbytes;
      }
    }
    assert |MidBytes(p)| == if p.qos > 0 then 2 else 0;
  }

  /** The four additions to the property length. */
  method PropertyLength(props: seq<Property>, expiry: nat, alias: Option<nat>, id: nat) returns (len: nat)
    requires AllWellTyped(WireProps(props, expiry, alias, id))
    ensures len == PropLen(props, expiry, alias, id)
  {
    WireSplits(props, expiry, alias, id);
    len := GetLengthAll(props);
    var expiryLen := GetLengthAll(ExpiryProps(expiry));
    var aliasLen := GetLengthAll(AliasProps(alias));
    var idLen := GetLengthAll(IdProps(id));
    len := (((len + expiryLen) % TWO_32 + aliasLen) % TWO_32 + idLen) % TWO_32;
    WrappedSums(|PropertiesBytes(props)|, |PropertiesBytes(ExpiryProps(expiry))|, |PropertiesBytes(AliasProps(alias))|,
                |PropertiesBytes(IdProps(id))|);
  }

  lemma WrappedSum(a: nat, b: nat)
    ensures (a % TWO_32 + b % TWO_32) % TWO_32 == (a + b) % TWO_32
  {
  }

  lemma WrappedSums(a: nat, b: nat, c: nat, d: nat)
    ensures (((a % TWO_32 + b % TWO_32) % TWO_32 + c % TWO_32) % TWO_32 + d % TWO_32) % TWO_32 == (a + b + c + d) % TWO_32
  {
    WrappedSum(a, b);
    WrappedSum(a + b, c);
    WrappedSum(a + b + c, d);
  }

  /** Everything behind the fixed header, in a buffer that has room for it. */
  method WriteBody(packet: Out.PacketOut, v5: bool, head: Head, p: Publish, expiry: nat, id: nat, proplen: nat)
    requires Typed(v5, p, WireProps(p.props, expiry, head.alias, id))
    requires head.topic.Some? ==> head.topic.value == p.topic
    requires v5 ==> proplen == PropLen(p.props, expiry, head.alias, id)
    requires packet.Valid() && packet.Room() >= |BodyWritten(v5, head, p, expiry, id)|
    modifies packet`pos, packet.data
    ensures packet.Valid() && packet.Room() == old(packet.Room()) - |BodyWritten(v5, head, p, expiry, id)|
    ensures packet.Filled() == old(packet.Filled()) + BodyWritten(v5, head, p, expiry, id)
  {
    ghost var filled := packet.Filled();
    ghost var props := if v5 then PropBytesWritten(p.props, expiry, head.alias, id) else [];
    assert |MidBytes(p)| == if p.qos > 0 then 2 else 0;
    WriteStart(packet, head.topic, p);
    if v5 {
      WriteWire(packet, p.props, expiry, head.alias, id, proplen);
    }
    assert packet.Filled() == filled + Binary(TopicBytes(head.topic)) + MidBytes(p) + props;
    packet.WriteBytes(p.payload);
    Associates(filled, Binary(TopicBytes(head.topic)), MidBytes(p), props, p.payload, []);
  }

  method WriteStart(packet: Out.PacketOut, topic: Option<Name>, p: Publish)
    requires packet.Valid() && packet.Room() >= 2 + |TopicBytes(topic)| + |MidBytes(p)|
    modifies packet`pos, packet.data
    ensures packet.Valid() && packet.Room() == old(packet.Room()) - (2 + |TopicBytes(topic)| + |MidBytes(p)|)
    ensures packet.Filled() == old(packet.Filled()) + Binary(TopicBytes(topic)) + MidBytes(p)
  {
    if topic.Some? {
      packet.WriteString(topic.value);
    } else {
      packet.WriteUint16(0);
      assert Uint16(0) == Binary([]);
    }
    if p.qos > 0 {
      packet.WriteUint16(p.mid);
    }
  }

  /** The properties, or what is left of them if their length takes more than four bytes. */
  method WriteWire(packet: Out.PacketOut, props: seq<Property>, expiry: nat, alias: Option<nat>, id: nat, proplen: nat)
    requires AllWellTyped(WireProps(props, expiry, alias, id))
    requires proplen == PropLen(props, expiry, alias, id)
    requires packet.Valid() && packet.Room() >= |PropBytesWritten(props, expiry, alias, id)|
    modifies packet`pos, packet.data
    ensures packet.Valid() && packet.Room() == old(packet.Room()) - |PropBytesWritten(props, expiry, alias, id)|
    ensures packet.Filled() == old(packet.Filled()) + PropBytesWritten(props, expiry, alias, id)
  {
    WireSplits(props, expiry, alias, id);
    VarintLength(proplen);
    var storeProps, expiryInterval := props, expiry;
    if VarintBytes(proplen) > 4 {
      storeProps, expiryInterval := [], 0;
      CutTyped(alias, id);
    }
    ghost var filled := packet.Filled();
    var status := packet.WriteVarint(proplen);
    WriteLists(packet, storeProps, expiryInterval, alias, id);
    Associates(filled, Varint(proplen), PropertiesBytes(PropsWritten(props, expiry, alias, id)), [], [], []);
  }

  lemma CutTyped(alias: Option<nat>, id: nat)
    requires AllWellTyped(AliasProps(alias)) && AllWellTyped(IdProps(id))
    ensures AllWellTyped(WireProps([], 0, alias, id))
  {
    assert [] + ExpiryProps(0) + AliasProps(alias) == AliasProps(alias);
    AllAppend(WellTyped, AliasProps(alias), IdProps(id));
  }

  method WriteLists(packet: Out.PacketOut, props: seq<Property>, expiry: nat, alias: Option<nat>, id: nat)
    requires AllWellTyped(WireProps(props, expiry, alias, id))
    requires packet.Valid() && packet.Room() >= |PropertiesBytes(WireProps(props, expiry, alias, id))|
    modifies packet`pos, packet.data
    ensures packet.Valid()
    ensures packet.Room() == old(packet.Room()) - |PropertiesBytes(WireProps(props, expiry, alias, id))|
    ensures packet.Filled() == old(packet.Filled()) + PropertiesBytes(WireProps(props, expiry, alias, id))
  {
    WireSplits(props, expiry, alias, id);
    ghost var filled := packet.Filled();
    var status := packet.WriteProperties(props);
    status := packet.WriteProperties(ExpiryProps(expiry));
    status := packet.WriteProperties(AliasProps(alias));
    status := packet.WriteProperties(IdProps(id));
    Associates(filled, PropertiesBytes(props), PropertiesBytes(ExpiryProps(expiry)), PropertiesBytes(AliasProps(alias)),
               PropertiesBytes(IdProps(id)), []);
  }

  lemma Associates(a: Bytes, b: Bytes, c: Bytes, d: Bytes, e: Bytes, f: Bytes)
    ensures f == [] ==> a + b + c + d + e == a + (b + c + d + e)
    ensures d + e + f == [] ==> a + b + c == a + (b + c)
  {
  }

  lemma WireSplits(props: seq<Property>, expiry: nat, alias: Option<nat>, id: nat)
    requires AllWellTyped(WireProps(props, expiry, alias, id))
    ensures AllWellTyped(props) && AllWellTyped(ExpiryProps(expiry))
    ensures AllWellTyped(AliasProps(alias)) && AllWellTyped(IdProps(id))
    ensures PropertiesBytes(WireProps(props, expiry, alias, id))
         == PropertiesBytes(props) + PropertiesBytes(ExpiryProps(expiry)) + PropertiesBytes(AliasProps(alias))
          + PropertiesBytes(IdProps(id))
  {
    ListAppend(PropertyBytes, props, ExpiryProps(expiry));
    ListAppend(PropertyBytes, props + ExpiryProps(expiry), AliasProps(alias));
    ListAppend(PropertyBytes, props + ExpiryProps(expiry) + AliasProps(alias), IdProps(id));
    AllAppend(WellTyped, props, ExpiryProps(expiry));
    AllAppend(WellTyped, props + ExpiryProps(expiry), AliasProps(alias));
    AllAppend(WellTyped, props + ExpiryProps(expiry) + AliasProps(alias), IdProps(id));
  }
}
