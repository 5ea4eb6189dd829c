/** The body of an incoming packet with its read position, and the reading of property lists. */
module PacketIn {
  import opened Basics
  import opened Codec
  import opened ItemList
  import opened Properties
  import Utf8

  /** A method's status and results agree with what the reading function gives. */
  ghost predicate Agrees<T>(r: Read<T>, status: Status, value: T, pos: nat) {
    match r
    case Ok(v, end) => status == Success && value == v && pos == end
    case Err(e) => status == Failed(e)
  }

  class PacketIn {
    const payload: Bytes
    var pos: nat

    constructor (payload: Bytes)
      ensures this.payload == payload && pos == 0
    {
      this.payload := payload;
      pos := 0;
    }

    method GetByte() returns (status: Status, byte: Byte)
      modifies this
      ensures Agrees(ReadByte(payload, old(pos)), status, byte, pos)
    {
      byte := 0;
      if pos + 1 > |payload| {
        status := Failed(Malformed);
        return;
      }
      byte := payload[pos];
      pos := pos + 1;
      status := Success;
    }

    method GetUint16() returns (status: Status, word: nat)
      modifies this
      ensures Agrees(ReadUint16(payload, old(pos)), status, word, pos)
    {
      word := 0;
      if pos + 2 > |payload| {
        status := Failed(Malformed);
        return;
      }
      word := payload[pos] as nat * 256 + payload[pos + 1];
      pos := pos + 2;
      status := Success;
    }

    method GetUint32() returns (status: Status, word: nat)
      modifies this
      ensures Agrees(ReadUint32(payload, old(pos)), status, word, pos)
    {
      word := 0;
      if pos + 4 > |payload| {
        status := Failed(Malformed);
        return;
      }
      word := ((payload[pos] as nat * 256 + payload[pos + 1]) * 256 + payload[pos + 2]) * 256 + payload[pos + 3];
      pos := pos + 4;
      status := Success;
    }

    /** packet__read_varint; `bytes` is the number of bytes taken. */
    method GetVarint() returns (status: Status, word: nat, bytes: nat)
      modifies this
      ensures Agrees(ReadVarint(payload, old(pos)), status, word, pos)
      ensures status == Success ==> bytes == pos - old(pos)
    {
      word, bytes := 0, 0;
      var lword: nat, mult: nat := 0, 1;
      var i := 0;
      ghost var start := pos;
      while i < 4
        invariant 0 <= i <= 4 && pos == start + i && bytes == i
        invariant Resumes(ReadVarint(payload, start), ReadVarintIn(payload, pos, 4 - i), i, lword, mult)
      {
        if pos < |payload| {
          bytes := bytes + 1;
          var byte: Byte := payload[pos];
          if byte >= 128 {
            VarintResumes(payload, start, pos, i, lword, mult);
          } else {
            VarintStops(payload, start, pos, i, lword, mult);
          }
          lword := lword + (byte % 128) as nat * mult;
          mult := mult * 128;
          pos := pos + 1;
          if byte < 128 {
            if bytes > 1 && byte == 0 {
              status := Failed(Malformed);
              return;
            } else {
              word := lword;
              status := Success;
              return;
            }
          }
        } else {
          status := Failed(Malformed);
          return;
        }
        i := i + 1;
      }
      status := Failed(Malformed);
    }

    method GetBinary() returns (status: Status, data: Bytes)
      modifies this
      ensures Agrees(ReadBinary(payload, old(pos)), status, data, pos)
    {
      data := [];
      var slen;
      status, slen := GetUint16();
      if status != Success {
        return;
      }
      if slen == 0 {
        assert payload[pos..pos] == [];
        return;
      }
      if pos + slen > |payload| {
        status := Failed(Malformed);
        return;
      }
      data := payload[pos..pos + slen];
      pos := pos + slen;
    }

    method GetString() returns (status: Status, data: Bytes)
      modifies this
      ensures Agrees(ReadString(payload, old(pos)), status, data, pos)
    {
      status, data := GetBinary();
      if status != Success {
        return;
      }
      BinaryReaderIsExact(payload, old(pos), data, pos);
      if |data| == 0 {
        return;
      }
      var v := Utf8.Validate(data);
      if v != Utf8.Good {
        status := Failed(MalformedUtf8);
      }
    }

    /** The value of a property of kind k, and the number of bytes taken off the counter for it. */
    method GetValue(k: Kind) returns (status: Status, value: Value, taken: nat)
      modifies this
      ensures Agrees(ReadValue(payload, old(pos), k), status, value, pos)
      ensures status == Success ==> taken == pos - old(pos)
    {
      value, taken := PByte(0), 0;
      match k
      case KByte =>
        var byte;
        status, byte := GetByte();
        value, taken := PByte(byte), 1;
      case KInt16 =>
        var word;
        status, word := GetUint16();
        value, taken := PInt16(word), 2;
      case KInt32 =>
        var word;
        status, word := GetUint32();
        value, taken := PInt32(word), 4;
      case KVarint =>
        var word;
        status, word, taken := GetVarint();
        value := PVarint(word);
      case KString =>
        var data;
        status, data := GetString();
        value, taken := PString(data), 2 + |data|;
        StringReaderIsExact(payload, old(pos), data, pos);
      case KBinary =>
        var data;
        status, data := GetBinary();
        value, taken := PBinary(data), 2 + |data|;
        BinaryReaderIsExact(payload, old(pos), data, pos);
      case KPair =>
        var name, text;
        status, name := GetString();
        if status != Success {
          return;
        }
        StringReaderIsExact(payload, old(pos), name, pos);
        ghost var mid := pos;
        status, text := GetString();
        value, taken := PPair(name, text), 2 + |name| + 2 + |text|;
        StringReaderIsExact(payload, mid, text, pos);
    }

    /** property__read: the 32 bit counter goes down by the bytes read, wrapping below zero. */
    method GetProperty(len: nat) returns (status: Status, property: Property, left: nat)
      modifies this
      ensures Agrees(ReadProperty(payload, old(pos)), status, property, pos)
      ensures status == Success ==> old(pos) < pos <= |payload| && left == Minus32(len, pos - old(pos))
    {
      property, left := Property(0, PByte(0)), len;
      var id, bytes;
      status, id, bytes := GetVarint();
      if status != Success {
        return;
      }
      ghost var mid := pos;
      VarintTakes(payload, old(pos), id, mid);
      left := Minus32(left, VarintBytes(id));
      var kind := KindOf(id);
      if kind.None? {
        status := Failed(Malformed);
        return;
      }
      var value, taken;
      status, value, taken := GetValue(kind.value);
      if status != Success {
        return;
      }
      ValueStays(payload, mid, kind.value, value, pos);
      ModMinus(len - VarintBytes(id), taken);
      left := Minus32(left, taken);
      property := Property(id, value);
    }

    /** The loop of property__read_all: it ends on every packet, and takes what ReadList says. */
    method GetPropertyList() returns (status: Status, ps: seq<Property>)
      modifies this
      ensures Agrees(ReadList(payload, old(pos)), status, ps, pos)
    {
      ps := [];
      var proplen, bytes;
      status, proplen, bytes := GetVarint();
      if status != Success {
        return;
      }
      ghost var start, declared := pos, proplen;
      VarintReaderIsExact(payload, old(pos), declared, start);
      ghost var whole := ReadLoop(ReaderOf(payload), |payload|, start, declared);
      LoopStarts(whole);
      while proplen > 0
        invariant pos <= |payload| && status == Success
        invariant SoFar(whole, ps, ReadLoop(ReaderOf(payload), |payload|, pos, proplen))
        decreases |payload| - pos
      {
        ghost var before, len := pos, proplen;
        var p;
        status, p, proplen := GetProperty(proplen);
        if status != Success {
          return;
        }
        LoopUnfolds(payload, before, len, p, pos, proplen, whole, ps);
        ps := ps + [p];
      }
      assert ps + [] == ps;
    }

    /** property__read_all: the list, if it passes the checks for the command. */
    method GetProperties(command: nat) returns (status: Status, ps: seq<Property>)
      requires |payload| < TWO_28
      modifies this
      ensures Agrees(ReadChecked(command, payload, old(pos)), status, ps, pos)
    {
      status, ps := GetPropertyList();
      if status != Success {
        return;
      }
      PropertyListReaderIsExact(payload, old(pos), ps, pos);
      var fault := CheckAll(command, ps);
      if fault.Some? {
        status := Failed(fault.value);
      }
    }
  }

  /** A property list that passes the checks for the command. */
  function ReadChecked(command: nat, s: Bytes, pos: nat): Read<seq<Property>> {
    match ReadList(s, pos)
    case Err(e) => Err(e)
    case Ok(ps, end) =>
      match Fault(command, ps)
      case Some(e) => Err(e)
      case None => Ok(ps, end)
  }

  /** Shortest encodings only: the number of bytes read is the one computed from the value. */
  lemma VarintTakes(s: Bytes, pos: nat, word: nat, end: nat)
    requires ReadVarint(s, pos) == Ok(word, end)
    ensures end == pos + VarintBytes(word) && pos < end <= |s|
  {
    VarintReaderIsExact(s, pos, word, end);
    VarintLength(word);
  }

  lemma ValueStays(s: Bytes, pos: nat, k: Kind, v: Value, end: nat)
    requires ReadValue(s, pos, k) == Ok(v, end)
    ensures pos <= end <= |s|
  {
    ValueFound(s, pos, k, v, end);
  }

  /** The properties done and what the rest of the loop gives make up the whole. */
  ghost predicate SoFar(whole: Read<seq<Property>>, done: seq<Property>, rest: Read<seq<Property>>) {
    match rest
    case Err(e) => whole == Err(e)
    case Ok(ps, end) => whole == Ok(done + ps, end)
  }

  lemma LoopStarts(whole: Read<seq<Property>>)
    ensures SoFar(whole, [], whole)
  {
    if whole.Ok? { assert [] + whole.value == whole.value; }
  }

  /** One turn of the reading loop. */
  lemma LoopUnfolds(s: Bytes, pos: nat, len: nat, p: Property, mid: nat, left: nat,
                    whole: Read<seq<Property>>, done: seq<Property>)
    requires len > 0 && ReadProperty(s, pos) == Ok(p, mid) && pos < mid <= |s| && left == Minus32(len, mid - pos)
    requires SoFar(whole, done, ReadLoop(ReaderOf(s), |s|, pos, len))
    ensures SoFar(whole, done + [p], ReadLoop(ReaderOf(s), |s|, mid, left))
  {
    LoopTurn(s, pos, len, p, mid, left);
    var rest := ReadLoop(ReaderOf(s), |s|, mid, left);
    if rest.Ok? { Regroup(done, p, rest.value); }
  }

  lemma LoopTurn(s: Bytes, pos: nat, len: nat, p: Property, mid: nat, left: nat)
    requires len > 0 && ReadProperty(s, pos) == Ok(p, mid) && pos < mid <= |s| && left == Minus32(len, mid - pos)
    ensures ReadLoop(ReaderOf(s), |s|, pos, len) == After(p, ReadLoop(ReaderOf(s), |s|, mid, left))
  {
    assert ReaderOf(s)(pos) == Ok(p, mid);
  }

  function After(p: Property, rest: Read<seq<Property>>): Read<seq<Property>> {
    match rest
    case Err(e) => Err(e)
    case Ok(ps, end) => Ok([p] + ps, end)
  }

  lemma Regroup(a: seq<Property>, p: Property, b: seq<Property>)
    ensures a + ([p] + b) == (a + [p]) + b
  {
  }

  /** After i bytes the loop has lword, and what is left counts mult times. */
  ghost predicate Resumes(whole: Read<nat>, rest: Read<nat>, i: nat, lword: nat, mult: nat) {
    match rest
    case Err(e) => whole == Err(e)
    case Ok(v, end) => if i > 0 && v == 0 then whole == Err(Malformed) else whole == Ok(lword + v * mult, end)
  }

  lemma Distributes(b: nat, v: nat, mult: nat)
    ensures (b + 128 * v) * mult == b * mult + v * (mult * 128)
  {
    assert (128 * v) * mult == v * (mult * 128);
  }

  /** The last byte: a zero behind others is refused. */
  lemma VarintStops(s: Bytes, start: nat, pos: nat, i: nat, lword: nat, mult: nat)
    requires i < 4 && pos == start + i && pos < |s| && s[pos] < 128
    requires Resumes(ReadVarint(s, start), ReadVarintIn(s, pos, 4 - i), i, lword, mult)
    ensures ReadVarint(s, start)
      == if i > 0 && s[pos] == 0 then Err(Malformed) else Ok(lword + s[pos] % 128 * mult, pos + 1)
  {
  }

  lemma VarintResumes(s: Bytes, start: nat, pos: nat, i: nat, lword: nat, mult: nat)
    requires i < 4 && pos == start + i && pos < |s|
    requires Resumes(ReadVarint(s, start), ReadVarintIn(s, pos, 4 - i), i, lword, mult)
    ensures s[pos] >= 128 ==>
      Resumes(ReadVarint(s, start), ReadVarintIn(s, pos + 1, 4 - i - 1), i + 1, lword + s[pos] % 128 * mult, mult * 128)
  {
    if s[pos] >= 128 {
      var r := ReadVarintIn(s, pos + 1, 4 - i - 1);
      if r.Ok? {
        Distributes(s[pos] % 128, r.value, mult);
      }
    }
  }
}
