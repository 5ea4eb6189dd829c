/** An outgoing packet under construction: a buffer of the size fixed at allocation, filled from the front. */
module PacketOut {
  import opened Basics
  import opened Codec
  import opened Properties

  /** Bytes kept free in front of each packet, for a websocket frame header. */
  const WS_PACKET_OFFSET := 16

  class PacketOut {
    const command: Byte
    const remainingLength: nat
    const data: array<Byte>
    var pos: nat

    ghost predicate Valid()
      reads this
    {
      WS_PACKET_OFFSET <= pos <= data.Length
    }

    /** What has been written of the packet. */
    ghost function Filled(): Bytes
      requires Valid()
      reads this, data
    {
      data[WS_PACKET_OFFSET..pos]
    }

    ghost function Room(): nat
      requires Valid()
      reads this
    {
      data.Length - pos
    }

    constructor (command: Byte, remainingLength: nat, remainingBytes: Bytes)
      ensures Valid() && fresh(data)
      ensures this.command == command && this.remainingLength == remainingLength
      ensures Filled() == [command] + remainingBytes && Room() == remainingLength
    {
      this.command, this.remainingLength := command, remainingLength;
      data := new Byte[WS_PACKET_OFFSET + 1 + |remainingBytes| + remainingLength];
      pos := WS_PACKET_OFFSET + 1 + |remainingBytes|;
      new;
      data[WS_PACKET_OFFSET] := command;
      for i := 0 to |remainingBytes|
        invariant pos == WS_PACKET_OFFSET + 1 + |remainingBytes|
        invariant data[WS_PACKET_OFFSET] == command
        invariant data[WS_PACKET_OFFSET + 1..WS_PACKET_OFFSET + 1 + i] == remainingBytes[..i]
      {
        data[WS_PACKET_OFFSET + i + 1] := remainingBytes[i];
      }
      assert data[WS_PACKET_OFFSET..pos] == [data[WS_PACKET_OFFSET]] + data[WS_PACKET_OFFSET + 1..pos];
    }

    method WriteByte(byte: Byte)
      requires Valid() && Room() >= 1
      modifies this`pos, data
      ensures Valid() && Filled() == old(Filled()) + [byte] && Room() == old(Room()) - 1
    {
      data[pos] := byte;
      pos := pos + 1;
    }

    method WriteBytes(bytes: Bytes)
      requires Valid() && Room() >= |bytes|
      modifies this`pos, data
      ensures Valid() && Filled() == old(Filled()) + bytes && Room() == old(Room()) - |bytes|
    {
      if |bytes| > 0 {
        forall i | 0 <= i < |bytes| {
          data[pos + i] := bytes[i];
        }
        assert data[WS_PACKET_OFFSET..pos] == old(data[WS_PACKET_OFFSET..pos]);
        assert data[pos..pos + |bytes|] == bytes;
        pos := pos + |bytes|;
        assert Filled() == data[WS_PACKET_OFFSET..old(pos)] + data[old(pos)..pos];
      }
    }

    method WriteUint16(word: nat)
      requires Valid() && Room() >= 2
      modifies this`pos, data
      ensures Valid() && Filled() == old(Filled()) + Uint16(word) && Room() == old(Room()) - 2
    {
      WriteByte(word / 256 % 256);
      WriteByte(word % 256);
    }

    method WriteUint32(word: nat)
      requires Valid() && Room() >= 4
      modifies this`pos, data
      ensures Valid() && Filled() == old(Filled()) + Uint32(word) && Room() == old(Room()) - 4
    {
      WriteByte(word / 0x100_0000 % 256);
      WriteByte(word / 0x1_0000 % 256);
      WriteByte(word / 256 % 256);
      WriteByte(word % 256);
    }

    method WriteString(str: Bytes)
      requires Valid() && Room() >= 2 + |str|
      modifies this`pos, data
      ensures Valid() && Filled() == old(Filled()) + Binary(str) && Room() == old(Room()) - 2 - |str|
    {
      WriteUint16(|str|);
      WriteBytes(str);
      assert Filled() == old(Filled()) + Uint16(|str|) + str;
    }

    /** packet__write_varint: a 32 bit word; five bytes are written and then an error reported if four do not do. */
    method WriteVarint(word: nat) returns (status: Status)
      requires word < TWO_32
      requires Valid() && Room() >= VarintBytes(word)
      modifies this`pos, data
      ensures Valid() && Filled() == old(Filled()) + Varint(word) && Room() == old(Room()) - VarintBytes(word)
      ensures status == if word < TWO_28 then Success else Failed(Malformed)
    {
      var rest: nat, count: nat := word, 0;
      while true
        invariant Under(word, count, rest)
        invariant Valid() && Room() == old(Room()) - count && Filled() == old(Filled()) + Digits(word, count)
        decreases 5 - count
      {
        var byte: Byte := rest % 128;
        UnderStep(word, count, rest);
        ghost var done := Digits(word, count);
        rest := rest / 128;
        if rest > 0 {
          byte := byte + 128;
        }
        WriteByte(byte);
        count := count + 1;
        Regroup(old(Filled()), done, [byte]);
        if !(rest > 0 && count < 5) {
          break;
        }
      }
      return if count == 5 then Failed(Malformed) else Success;
    }

    method WriteValue(v: Value) returns (status: Status)
      requires InRange(v)
      requires Valid() && Room() >= |ValueBytes(v)|
      modifies this`pos, data
      ensures Valid() && Filled() == old(Filled()) + ValueBytes(v) && Room() == old(Room()) - |ValueBytes(v)|
      ensures status == Success
    {
      status := Success;
      ghost var filled := Filled();
      match v
      case PByte(b) => WriteByte(b);
      case PInt16(n) => WriteUint16(n);
      case PInt32(n) => WriteUint32(n);
      case PVarint(n) =>
        VarintLength(n);
        status := WriteVarint(n);
      case PString(s) => WriteString(s);
      case PBinary(s) =>
        WriteUint16(|s|);
        WriteBytes(s);
        Regroup(filled, Uint16(|s|), s);
      case PPair(name, s) =>
        WriteString(name);
        WriteString(s);
        Regroup(filled, Binary(name), Binary(s));
    }

    method WriteProperty(p: Property) returns (status: Status)
      requires WellTyped(p)
      requires Valid() && Room() >= |PropertyBytes(p)|
      modifies this`pos, data
      ensures Valid() && Filled() == old(Filled()) + PropertyBytes(p) && Room() == old(Room()) - |PropertyBytes(p)|
      ensures status == Success
    {
      KnownIsSmall(p.id);
      VarintLength(p.id);
      ghost var filled := Filled();
      status := WriteVarint(p.id);
      status := WriteValue(p.value);
      Regroup(filled, Varint(p.id), ValueBytes(p.value));
    }

    /** property__write_all without the length in front. */
    method WriteProperties(ps: seq<Property>) returns (status: Status)
      requires AllWellTyped(ps)
      requires Valid() && Room() >= |PropertiesBytes(ps)|
      modifies this`pos, data
      ensures Valid() && Filled() == old(Filled()) + PropertiesBytes(ps)
      ensures Room() == old(Room()) - |PropertiesBytes(ps)|
      ensures status == Success
    {
      status := Success;
      var i := 0;
      assert ps[i..] == ps;
      while i < |ps|
        invariant i <= |ps| && AllWellTyped(ps[i..]) && status == Success
        invariant Valid() && Room() >= |PropertiesBytes(ps[i..])|
        invariant Filled() + PropertiesBytes(ps[i..]) == old(Filled()) + PropertiesBytes(ps)
        invariant Room() - |PropertiesBytes(ps[i..])| == old(Room()) - |PropertiesBytes(ps)|
      {
        assert ps[i..][1..] == ps[i + 1..];
        ghost var filled := Filled();
        status := WriteProperty(ps[i]);
        Regroup(filled, PropertyBytes(ps[i]), PropertiesBytes(ps[i + 1..]));
        i := i + 1;
      }
    }
  }

  /** packet__alloc: the fixed header is written, and exactly the remaining length is left free. */
  method Alloc(command: Byte, remainingLength: nat) returns (status: Status, packet: PacketOut?)
    requires remainingLength < TWO_32
    ensures status == if remainingLength < TWO_28 then Success else Failed(PayloadSize)
    ensures status == Success ==>
      && packet != null && fresh(packet) && fresh(packet.data) && packet.Valid()
      && packet.command == command && packet.remainingLength == remainingLength
      && packet.Filled() == [command] + Varint(remainingLength) && packet.Room() == remainingLength
  {
    var rest: nat, count: nat := remainingLength, 0;
    var remainingBytes: Bytes := [];
    packet := null;
    while true
      invariant Under(remainingLength, count, rest) && remainingBytes == Digits(remainingLength, count)
      decreases 5 - count
    {
      var byte: Byte := rest % 128;
      UnderStep(remainingLength, count, rest);
      rest := rest / 128;
      if rest > 0 {
        byte := byte + 128;
      }
      remainingBytes := remainingBytes + [byte];
      count := count + 1;
      if !(rest > 0 && count < 5) {
        break;
      }
    }
    if count == 5 {
      status := Failed(PayloadSize);
      return;
    }
    status := Success;
    packet := new PacketOut(command, remainingLength, remainingBytes);
  }

  // ---------------------------------------------------------------- the digits of a length

  /** What is left of a word after some digits. */
  function Left(word: nat, count: nat): nat { if count == 0 then word else Left(word, count - 1) / 128 }

  /** The first digits of a word, all of them continued. */
  function Digits(word: nat, count: nat): Bytes {
    if count == 0 then [] else Digits(word, count - 1) + [Left(word, count - 1) % 128 + 128]
  }

  /** The loop has written the first digits, and there is more to come. */
  predicate Under(word: nat, count: nat, rest: nat) {
    word < TWO_32 && count < 5 && rest == Left(word, count) && (count == 0 || rest > 0)
  }

  lemma {:induction false} DigitsAndRest(word: nat, count: nat)
    requires word < TWO_32 && (count == 0 || Left(word, count) > 0)
    ensures Varint(word) == Digits(word, count) + Varint(Left(word, count))
    ensures VarintBytes(word) == count + VarintBytes(Left(word, count)) && Left(word, count) <= word
  {
    if count > 0 {
      DigitsAndRest(word, count - 1);
      var before := Left(word, count - 1);
      assert before >= 128;
      Regroup(Digits(word, count - 1), [before % 128 + 128], Varint(before / 128));
    }
  }

  /** One more digit: the loop goes on, or the word is written. */
  lemma UnderStep(word: nat, count: nat, rest: nat)
    requires Under(word, count, rest)
    ensures count < VarintBytes(word) <= 5
    ensures rest / 128 > 0 ==>
      Digits(word, count + 1) == Digits(word, count) + [rest % 128 + 128] && (count < 4 ==> Under(word, count + 1, rest / 128))
    ensures rest / 128 > 0 ==> count < 4
    ensures rest / 128 == 0 ==> Varint(word) == Digits(word, count) + [rest % 128] && VarintBytes(word) == count + 1
  {
    DigitsAndRest(word, count);
  }

  lemma Regroup(a: Bytes, b: Bytes, c: Bytes)
    ensures a + (b + c) == (a + b) + c
  {
  }
}
