/**
 MQTT 5 property lists: their encoding, the checks on them, and the reading loop with its
 wrapping 32 bit length counter.
 */
module Properties {
  import opened Basics
  import opened Codec
  import opened ItemList
  import Topic

  // ---------------------------------------------------------------- identifiers

  const PAYLOAD_FORMAT_INDICATOR := 1
  const MESSAGE_EXPIRY_INTERVAL := 2
  const CONTENT_TYPE := 3
  const RESPONSE_TOPIC := 8
  const CORRELATION_DATA := 9
  const SUBSCRIPTION_IDENTIFIER := 11
  const SESSION_EXPIRY_INTERVAL := 17
  const ASSIGNED_CLIENT_IDENTIFIER := 18
  const SERVER_KEEP_ALIVE := 19
  const AUTHENTICATION_METHOD := 21
  const AUTHENTICATION_DATA := 22
  const REQUEST_PROBLEM_INFORMATION := 23
  const WILL_DELAY_INTERVAL := 24
  const REQUEST_RESPONSE_INFORMATION := 25
  const RESPONSE_INFORMATION := 26
  const SERVER_REFERENCE := 28
  const REASON_STRING := 31
  const RECEIVE_MAXIMUM := 33
  const TOPIC_ALIAS_MAXIMUM := 34
  const TOPIC_ALIAS := 35
  const MAXIMUM_QOS := 36
  const RETAIN_AVAILABLE := 37
  const USER_PROPERTY := 38
  const MAXIMUM_PACKET_SIZE := 39
  const WILDCARD_SUB_AVAILABLE := 40
  const SUBSCRIPTION_ID_AVAILABLE := 41
  const SHARED_SUB_AVAILABLE := 42

  datatype Kind = KByte | KInt16 | KInt32 | KVarint | KBinary | KString | KPair

  predicate ByteId(id: nat) {
    || id == PAYLOAD_FORMAT_INDICATOR || id == REQUEST_PROBLEM_INFORMATION
    || id == REQUEST_RESPONSE_INFORMATION || id == MAXIMUM_QOS || id == RETAIN_AVAILABLE
    || id == WILDCARD_SUB_AVAILABLE || id == SUBSCRIPTION_ID_AVAILABLE || id == SHARED_SUB_AVAILABLE
  }

  predicate Int16Id(id: nat) {
    id == SERVER_KEEP_ALIVE || id == RECEIVE_MAXIMUM || id == TOPIC_ALIAS_MAXIMUM || id == TOPIC_ALIAS
  }

  predicate Int32Id(id: nat) {
    || id == MESSAGE_EXPIRY_INTERVAL || id == SESSION_EXPIRY_INTERVAL
    || id == WILL_DELAY_INTERVAL || id == MAXIMUM_PACKET_SIZE
  }

  predicate StringId(id: nat) {
    || id == CONTENT_TYPE || id == RESPONSE_TOPIC || id == ASSIGNED_CLIENT_IDENTIFIER
    || id == AUTHENTICATION_METHOD || id == RESPONSE_INFORMATION || id == SERVER_REFERENCE
    || id == REASON_STRING
  }

  /** The type of value a property identifier calls for. */
  function KindOf(id: nat): Option<Kind> {
    if ByteId(id) then Some(KByte)
    else if Int16Id(id) then Some(KInt16)
    else if Int32Id(id) then Some(KInt32)
    else if id == SUBSCRIPTION_IDENTIFIER then Some(KVarint)
    else if StringId(id) then Some(KString)
    else if id == AUTHENTICATION_DATA || id == CORRELATION_DATA then Some(KBinary)
    else if id == USER_PROPERTY then Some(KPair)
    else None
  }

  lemma KnownIsSmall(id: nat)
    ensures KindOf(id).Some? ==> 0 < id < 128
  {
  }

  // ---------------------------------------------------------------- values

  datatype Value =
    | PByte(byte: Byte)
    | PInt16(int16: nat)
    | PInt32(int32: nat)
    | PVarint(varint: nat)
    | PBinary(data: Bytes)
    | PString(text: Bytes)
    | PPair(name: Bytes, text: Bytes)

  datatype Property = Property(id: nat, value: Value)

  function KindOfValue(v: Value): Kind {
    match v
    case PByte(_) => KByte
    case PInt16(_) => KInt16
    case PInt32(_) => KInt32
    case PVarint(_) => KVarint
    case PBinary(_) => KBinary
    case PString(_) => KString
    case PPair(_, _) => KPair
  }

  predicate ShortString(s: Bytes) { |s| < 65536 && IsString(s) }

  predicate InRange(v: Value) {
    match v
    case PByte(_) => true
    case PInt16(n) => n < 65536
    case PInt32(n) => n < TWO_32
    case PVarint(n) => n < TWO_28
    case PBinary(data) => |data| < 65536
    case PString(s) => ShortString(s)
    case PPair(n, s) => ShortString(n) && ShortString(s)
  }

  predicate WellTyped(p: Property) { KindOf(p.id) == Some(KindOfValue(p.value)) && InRange(p.value) }

  // ---------------------------------------------------------------- writing

  function ValueBytes(v: Value): Bytes {
    match v
    case PByte(b) => [b]
    case PInt16(n) => Uint16(n)
    case PInt32(n) => Uint32(n)
    case PVarint(n) => Varint(n)
    case PBinary(data) => Binary(data)
    case PString(s) => Binary(s)
    case PPair(n, s) => Binary(n) + Binary(s)
  }

  function PropertyBytes(p: Property): Bytes { Varint(p.id) + ValueBytes(p.value) }

  /** mosquitto_property_get_length. */
  function GetLength(p: Property): nat {
    match p.value
    case PByte(_) => 2
    case PInt16(_) => 3
    case PInt32(_) => 5
    case PVarint(n) =>
      if n < 128 then 2 else if n < 16384 then 3 else if n < 2097152 then 4
      else if n < 268435456 then 5 else 0
    case PBinary(data) => 3 + |data|
    case PString(s) => 3 + |s|
    case PPair(n, s) => 5 + |s| + |n|
  }

  /** The announced length of a property is the number of bytes it is written with. */
  lemma LengthIsBytes(p: Property)
    requires WellTyped(p)
    ensures GetLength(p) == |PropertyBytes(p)|
  {
    KnownIsSmall(p.id);
    if p.value.PVarint? { VarintLength(p.value.varint); }
  }

  /** property__write_all, without the length in front. */
  function PropertiesBytes(ps: seq<Property>): Bytes { ListBytes(PropertyBytes, ps) }

  predicate AllWellTyped(ps: seq<Property>) { All(WellTyped, ps) }

  lemma {:induction false} AllAt(ps: seq<Property>, i: nat)
    requires AllWellTyped(ps) && i < |ps|
    ensures WellTyped(ps[i])
  {
    if i > 0 { AllAt(ps[1..], i - 1); }
  }

  lemma LengthsAreBytes(ps: seq<Property>)
    requires AllWellTyped(ps)
    ensures Tells(GetLength, PropertyBytes, ps)
  {
    forall i | 0 <= i < |ps|
      ensures GetLength(ps[i]) == |PropertyBytes(ps[i])|
    {
      AllAt(ps, i);
      LengthIsBytes(ps[i]);
    }
  }

  /** mosquitto_property_get_length_all, in 32 bit arithmetic. */
  method GetLengthAll(ps: seq<Property>) returns (len: nat)
    requires AllWellTyped(ps)
    ensures len == |PropertiesBytes(ps)| % 0x1_0000_0000
  {
    len := 0;
    var i := 0;
    while i < |ps|
      invariant i <= |ps|
      invariant len == Total(GetLength, ps, i)
    {
      len := (len + GetLength(ps[i])) % 0x1_0000_0000;
      i := i + 1;
    }
    LengthsAreBytes(ps);
    TotalIsLength(GetLength, PropertyBytes, ps);
  }

  // ---------------------------------------------------------------- reading one property

  function ReadPair(s: Bytes, pos: nat): Read<Value> {
    match ReadString(s, pos)
    case Err(e) => Err(e)
    case Ok(name, mid) =>
      match ReadString(s, mid)
      case Err(e) => Err(e)
      case Ok(text, end) => Ok(PPair(name, text), end)
  }

  function ReadValue(s: Bytes, pos: nat, k: Kind): Read<Value> {
    match k
    case KByte => (match ReadByte(s, pos) case Ok(b, end) => Ok(PByte(b), end) case Err(e) => Err(e))
    case KInt16 => (match ReadUint16(s, pos) case Ok(n, end) => Ok(PInt16(n), end) case Err(e) => Err(e))
    case KInt32 => (match ReadUint32(s, pos) case Ok(n, end) => Ok(PInt32(n), end) case Err(e) => Err(e))
    case KVarint => (match ReadVarint(s, pos) case Ok(n, end) => Ok(PVarint(n), end) case Err(e) => Err(e))
    case KBinary => (match ReadBinary(s, pos) case Ok(d, end) => Ok(PBinary(d), end) case Err(e) => Err(e))
    case KString => (match ReadString(s, pos) case Ok(d, end) => Ok(PString(d), end) case Err(e) => Err(e))
    case KPair => ReadPair(s, pos)
  }

  /** property__read. */
  function ReadProperty(s: Bytes, pos: nat): Read<Property> {
    match ReadVarint(s, pos)
    case Err(e) => Err(e)
    case Ok(id, mid) =>
      match KindOf(id)
      case None => Err(Malformed)
      case Some(k) =>
        match ReadValue(s, mid, k)
        case Err(e) => Err(e)
        case Ok(v, end) => Ok(Property(id, v), end)
  }

  lemma PairFound(s: Bytes, pos: nat, n: Bytes, t: Bytes, end: nat)
    requires ReadPair(s, pos) == Ok(PPair(n, t), end)
    ensures ShortString(n) && ShortString(t) && HasAt(s, pos, Binary(n) + Binary(t))
    ensures end == pos + |Binary(n) + Binary(t)|
  {
    var mid := ReadString(s, pos).pos;
    StringReaderIsExact(s, pos, n, mid);
    StringReaderIsExact(s, mid, t, end);
    HasAtSplit(s, pos, Binary(n), Binary(t));
  }

  lemma PairRead(s: Bytes, pos: nat, n: Bytes, t: Bytes)
    requires ShortString(n) && ShortString(t) && HasAt(s, pos, Binary(n) + Binary(t))
    ensures ReadPair(s, pos) == Ok(PPair(n, t), pos + |Binary(n) + Binary(t)|)
  {
    HasAtSplit(s, pos, Binary(n), Binary(t));
    var mid := pos + |Binary(n)|;
    StringReaderIsExact(s, pos, n, mid);
    StringReaderIsExact(s, mid, t, mid + |Binary(t)|);
  }

  /** The value v is written at pos, and end is behind it. */
  predicate ValueAt(s: Bytes, pos: nat, v: Value, end: nat) {
    InRange(v) && HasAt(s, pos, ValueBytes(v)) && end == pos + |ValueBytes(v)|
  }

  lemma ValueFound(s: Bytes, pos: nat, k: Kind, v: Value, end: nat)
    requires ReadValue(s, pos, k) == Ok(v, end)
    ensures KindOfValue(v) == k && ValueAt(s, pos, v, end)
  {
    match k
    case KByte => ByteReaderIsExact(s, pos, v.byte, end);
    case KInt16 => Uint16ReaderIsExact(s, pos, v.int16, end);
    case KInt32 => Uint32ReaderIsExact(s, pos, v.int32, end);
    case KVarint => VarintReaderIsExact(s, pos, v.varint, end);
    case KBinary => BinaryReaderIsExact(s, pos, v.data, end);
    case KString => StringReaderIsExact(s, pos, v.text, end);
    case KPair => PairFound(s, pos, v.name, v.text, end);
  }

  lemma ValueRead(s: Bytes, pos: nat, v: Value)
    requires InRange(v) && HasAt(s, pos, ValueBytes(v))
    ensures ReadValue(s, pos, KindOfValue(v)) == Ok(v, pos + |ValueBytes(v)|)
  {
    match v
    case PByte(b) => ByteReaderIsExact(s, pos, b, pos + 1);
    case PInt16(n) => Uint16ReaderIsExact(s, pos, n, pos + 2);
    case PInt32(n) => Uint32ReaderIsExact(s, pos, n, pos + 4);
    case PVarint(n) => VarintReaderIsExact(s, pos, n, pos + |Varint(n)|);
    case PBinary(d) => BinaryReaderIsExact(s, pos, d, pos + |Binary(d)|);
    case PString(d) => StringReaderIsExact(s, pos, d, pos + |Binary(d)|);
    case PPair(n, d) => PairRead(s, pos, n, d);
  }

  lemma ValueReaderIsExact(s: Bytes, pos: nat, k: Kind, v: Value, end: nat)
    ensures ReadValue(s, pos, k) == Ok(v, end) <==> KindOfValue(v) == k && ValueAt(s, pos, v, end)
  {
    if ReadValue(s, pos, k) == Ok(v, end) { ValueFound(s, pos, k, v, end); }
    if KindOfValue(v) == k && ValueAt(s, pos, v, end) { ValueRead(s, pos, v); }
  }

  lemma PropertyFound(s: Bytes, pos: nat, p: Property, end: nat)
    requires ReadProperty(s, pos) == Ok(p, end)
    ensures WellTyped(p) && HasAt(s, pos, PropertyBytes(p)) && end == pos + |PropertyBytes(p)|
  {
    var id, mid := ReadVarint(s, pos).value, ReadVarint(s, pos).pos;
    VarintReaderIsExact(s, pos, id, mid);
    ValueFound(s, mid, KindOf(id).value, p.value, end);
    HasAtSplit(s, pos, Varint(id), ValueBytes(p.value));
  }

  lemma PropertyRead(s: Bytes, pos: nat, p: Property)
    requires WellTyped(p) && HasAt(s, pos, PropertyBytes(p))
    ensures ReadProperty(s, pos) == Ok(p, pos + |PropertyBytes(p)|)
  {
    KnownIsSmall(p.id);
    HasAtSplit(s, pos, Varint(p.id), ValueBytes(p.value));
    var mid := pos + |Varint(p.id)|;
    VarintReaderIsExact(s, pos, p.id, mid);
    ValueRead(s, mid, p.value);
  }

  /** The reader of one property, as a function of the position. */
  function ReaderOf(s: Bytes): nat -> Read<Property> { (pos: nat) => ReadProperty(s, pos) }

  lemma PropertyFinds(s: Bytes)
    ensures Finds(s, ReaderOf(s), PropertyBytes, WellTyped)
  {
    forall pos: nat | ReadProperty(s, pos).Ok?
      ensures
        var p := ReadProperty(s, pos).value;
        WellTyped(p) && HasAt(s, pos, PropertyBytes(p)) && ReadProperty(s, pos).pos == pos + |PropertyBytes(p)|
    {
      PropertyFound(s, pos, ReadProperty(s, pos).value, ReadProperty(s, pos).pos);
    }
  }

  lemma PropertyReads(s: Bytes)
    ensures Reads(s, ReaderOf(s), PropertyBytes, WellTyped)
  {
    forall pos: nat, p: Property
      ensures ReadsAt(s, ReaderOf(s), PropertyBytes, WellTyped, pos, p)
    {
      if WellTyped(p) && HasAt(s, pos, PropertyBytes(p)) { PropertyRead(s, pos, p); }
    }
  }

  // ---------------------------------------------------------------- checks

  const CMD_CONNECT := 0x10
  const CMD_CONNACK := 0x20
  const CMD_PUBLISH := 0x30
  const CMD_SUBSCRIBE := 0x80
  const CMD_UNSUBSCRIBE := 0xA0
  const CMD_DISCONNECT := 0xE0
  const CMD_AUTH := 0xF0
  const CMD_WILL := 0x100

  /** mosquitto_property_check_command. */
  predicate AllowedIn(command: nat, id: nat) {
    if id == PAYLOAD_FORMAT_INDICATOR || id == MESSAGE_EXPIRY_INTERVAL || id == CONTENT_TYPE
       || id == RESPONSE_TOPIC || id == CORRELATION_DATA then
      command == CMD_PUBLISH || command == CMD_WILL
    else if id == SUBSCRIPTION_IDENTIFIER then
      command == CMD_PUBLISH || command == CMD_SUBSCRIBE
    else if id == SESSION_EXPIRY_INTERVAL then
      command == CMD_CONNECT || command == CMD_CONNACK || command == CMD_DISCONNECT
    else if id == AUTHENTICATION_METHOD || id == AUTHENTICATION_DATA then
      command == CMD_CONNECT || command == CMD_CONNACK || command == CMD_AUTH
    else if id == ASSIGNED_CLIENT_IDENTIFIER || id == SERVER_KEEP_ALIVE || id == RESPONSE_INFORMATION
            || id == MAXIMUM_QOS || id == RETAIN_AVAILABLE || id == WILDCARD_SUB_AVAILABLE
            || id == SUBSCRIPTION_ID_AVAILABLE || id == SHARED_SUB_AVAILABLE then
      command == CMD_CONNACK
    else if id == WILL_DELAY_INTERVAL then
      command == CMD_WILL
    else if id == REQUEST_PROBLEM_INFORMATION || id == REQUEST_RESPONSE_INFORMATION then
      command == CMD_CONNECT
    else if id == SERVER_REFERENCE then
      command == CMD_CONNACK || command == CMD_DISCONNECT
    else if id == REASON_STRING then
      command != CMD_CONNECT && command != CMD_PUBLISH && command != CMD_SUBSCRIBE && command != CMD_UNSUBSCRIBE
    else if id == RECEIVE_MAXIMUM || id == TOPIC_ALIAS_MAXIMUM || id == MAXIMUM_PACKET_SIZE then
      command == CMD_CONNECT || command == CMD_CONNACK
    else if id == TOPIC_ALIAS then
      command == CMD_PUBLISH
    else
      id == USER_PROPERTY
  }

  /** A byte string as a string of characters. */
  function Text(s: Bytes): string { seq(|s|, i requires 0 <= i < |s| => s[i] as char) }

  /** The checks on the value of a property of the right type. */
  predicate ValueAllowed(p: Property) {
    match p.value
    case PByte(b) => b <= 1
    case PInt16(n) => p.id == RECEIVE_MAXIMUM || p.id == TOPIC_ALIAS ==> n != 0
    case PInt32(n) => p.id == MAXIMUM_PACKET_SIZE ==> n != 0
    case PString(s) => p.id == RESPONSE_TOPIC ==> Topic.ValidTopic(Text(s))
    case _ => true
  }

  predicate Acceptable(command: nat, p: Property) { ValueAllowed(p) && AllowedIn(command, p.id) }

  predicate Occurs(id: nat, ps: seq<Property>) {
    if ps == [] then false else ps[0].id == id || Occurs(id, ps[1..])
  }

  predicate Repeated(ps: seq<Property>)
    requires ps != []
  {
    ps[0].id != USER_PROPERTY && Occurs(ps[0].id, ps[1..])
  }

  /** The first fault of a list, in the order of mosquitto_property_check_all. */
  function Fault(command: nat, ps: seq<Property>): Option<Error> {
    if ps == [] then None
    else if !Acceptable(command, ps[0]) then Some(Protocol)
    else if Repeated(ps) then Some(Duplicate)
    else Fault(command, ps[1..])
  }

  /** mosquitto_property_check_all succeeds. */
  predicate Checked(command: nat, ps: seq<Property>) { Fault(command, ps).None? }

  method CheckValue(p: Property) returns (ok: bool)
    requires WellTyped(p)
    ensures ok <==> ValueAllowed(p)
  {
    if ByteId(p.id) {
      return p.value.byte <= 1;
    } else if p.id == MAXIMUM_PACKET_SIZE {
      return p.value.int32 != 0;
    } else if p.id == RECEIVE_MAXIMUM || p.id == TOPIC_ALIAS {
      return p.value.int16 != 0;
    } else if p.id == RESPONSE_TOPIC {
      return Topic.ValidTopic(Text(p.value.text));
    }
    return true;
  }

  method FindDuplicate(ps: seq<Property>, start: nat, id: nat) returns (found: bool)
    requires start <= |ps|
    ensures found <==> Occurs(id, ps[start..])
  {
    var tail := start;
    while tail < |ps|
      invariant start <= tail <= |ps|
      invariant Occurs(id, ps[start..]) == Occurs(id, ps[tail..])
    {
      assert ps[tail..][1..] == ps[tail + 1..];
      if id == ps[tail].id {
        return true;
      }
      tail := tail + 1;
    }
    return false;
  }

  lemma FaultStep(command: nat, ps: seq<Property>, i: nat)
    requires i < |ps|
    ensures Fault(command, ps[i..])
      == if !Acceptable(command, ps[i]) then Some(Protocol)
         else if ps[i].id != USER_PROPERTY && Occurs(ps[i].id, ps[i + 1..]) then Some(Duplicate)
         else Fault(command, ps[i + 1..])
  {
    assert ps[i..][1..] == ps[i + 1..];
  }

  method CheckAll(command: nat, ps: seq<Property>) returns (fault: Option<Error>)
    requires AllWellTyped(ps)
    ensures fault == Fault(command, ps)
  {
    var i := 0;
    while i < |ps|
      invariant i <= |ps|
      invariant Fault(command, ps) == Fault(command, ps[i..])
    {
      AllAt(ps, i);
      FaultStep(command, ps, i);
      var ok := CheckValue(ps[i]);
      if !ok {
        return Some(Protocol);
      }
      if !AllowedIn(command, ps[i].id) {
        return Some(Protocol);
      }
      if ps[i].id != USER_PROPERTY {
        var found := FindDuplicate(ps, i + 1, ps[i].id);
        if found {
          return Some(Duplicate);
        }
      }
      i := i + 1;
    }
    return None;
  }

  lemma {:induction false} OccursAt(id: nat, ps: seq<Property>)
    ensures Occurs(id, ps) <==> exists i :: 0 <= i < |ps| && ps[i].id == id
  {
    if ps != [] {
      OccursAt(id, ps[1..]);
      if i :| 0 <= i < |ps| && ps[i].id == id {
        if i > 0 { assert ps[1..][i - 1].id == id; }
      }
      if i :| 0 <= i < |ps[1..]| && ps[1..][i].id == id { assert ps[i + 1].id == id; }
    }
  }

  predicate AllAcceptable(command: nat, ps: seq<Property>) {
    forall i | 0 <= i < |ps| :: Acceptable(command, ps[i])
  }

  predicate OnlyUserRepeated(ps: seq<Property>) {
    forall i, j | 0 <= i < j < |ps| && ps[i].id == ps[j].id :: ps[i].id == USER_PROPERTY
  }

  lemma AcceptableFirst(command: nat, ps: seq<Property>)
    requires ps != []
    ensures AllAcceptable(command, ps) <==> Acceptable(command, ps[0]) && AllAcceptable(command, ps[1..])
  {
    if AllAcceptable(command, ps[1..]) {
      forall i | 0 < i < |ps|
        ensures Acceptable(command, ps[i])
      {
        assert ps[i] == ps[1..][i - 1];
      }
    }
  }

  lemma RepeatedFirst(ps: seq<Property>)
    requires ps != []
    ensures OnlyUserRepeated(ps) <==> !Repeated(ps) && OnlyUserRepeated(ps[1..])
  {
    var rest := ps[1..];
    OccursAt(ps[0].id, rest);
    if OnlyUserRepeated(rest) && !Repeated(ps) {
      forall i, j | 0 <= i < j < |ps| && ps[i].id == ps[j].id
        ensures ps[i].id == USER_PROPERTY
      {
        assert ps[j] == rest[j - 1];
        if i > 0 { assert ps[i] == rest[i - 1]; }
      }
    }
    if OnlyUserRepeated(ps) {
      if k :| 0 <= k < |rest| && rest[k].id == ps[0].id { assert ps[k + 1] == rest[k]; }
    }
  }

  /** A list passes if and only if every property is acceptable and only the user property is repeated. */
  lemma {:induction false} CheckedMeans(command: nat, ps: seq<Property>)
    ensures Checked(command, ps) <==> AllAcceptable(command, ps) && OnlyUserRepeated(ps)
  {
    if ps != [] {
      CheckedMeans(command, ps[1..]);
      AcceptableFirst(command, ps);
      RepeatedFirst(ps);
    }
  }

  // ---------------------------------------------------------------- whole lists

  /** The list and the position behind it, read with the length in front; no checks. */
  function ReadList(s: Bytes, pos: nat): Read<seq<Property>> { ReadCounted(s, ReaderOf(s), pos) }

  /** property__write_all with the length in front. */
  function Written(ps: seq<Property>): Bytes { Counted(PropertyBytes, ps) }

  /**
   In a packet shorter than 2^28 bytes, reading succeeds exactly on what writing produces for a
   well typed list: same list, same order, and exactly the declared number of bytes consumed,
   although the counter can wrap while reading.
   */
  lemma PropertyListReaderIsExact(s: Bytes, pos: nat, ps: seq<Property>, end: nat)
    requires |s| < TWO_28
    ensures ReadList(s, pos) == Ok(ps, end)
       <==> AllWellTyped(ps) && HasAt(s, pos, Written(ps)) && end == pos + |Written(ps)|
  {
    PropertyFinds(s);
    PropertyReads(s);
    CountedIsExact(s, ReaderOf(s), PropertyBytes, WellTyped, pos, ps, end);
  }
}
