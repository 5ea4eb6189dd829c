/**
 The resumable packet reader: it can stop at any byte because the network has nothing more, and go
 on at the next call.
 */
module PacketReader {
  import opened Basics
  import opened Framing
  import opened Cutting

  datatype Rc = Success | ConnLost | Errno | Malformed | Handler(code: nat)

  /**
   One thing the network does: bytes that have arrived, nothing yet, the end, or a failure. At the
   end a read returns 0 and leaves the error number of an earlier call in place.
   */
  datatype Arrival = Data(bytes: Bytes) | WouldBlock | Eof(left: Rc) | Reset | Fault

  datatype Got = Chunk(bytes: Bytes) | Nothing(status: Rc) | End(left: Rc)

  predicate FromNetwork(rc: Rc) { rc.Success? || rc.ConnLost? || rc.Errno? }

  /** Bytes and events still to come. */
  function Ahead(arrivals: seq<Arrival>): nat {
    if arrivals == [] then 0
    else 1 + (if arrivals[0].Data? then |arrivals[0].bytes| else 0) + Ahead(arrivals[1..])
  }

  /** A connection: what it will do, in order, and the bytes it has given out. Behind the last event it fails. */
  class Network {
    var arrivals: seq<Arrival>
    ghost var taken: Bytes

    constructor (arrivals: seq<Arrival>)
      ensures this.arrivals == arrivals && taken == []
    {
      this.arrivals, taken := arrivals, [];
    }

    /** Up to n bytes, n > 0. */
    method Read(n: nat) returns (got: Got)
      requires n > 0
      modifies this
      ensures Ahead(arrivals) <= old(Ahead(arrivals))
      ensures got.Chunk? ==> 0 < |got.bytes| <= n && taken == old(taken) + got.bytes
      ensures got.Chunk? ==> Ahead(arrivals) + |got.bytes| <= old(Ahead(arrivals))
      ensures !got.Chunk? ==> taken == old(taken)
      ensures got.Nothing? ==> FromNetwork(got.status) && (got.status.Success? ==> Ahead(arrivals) < old(Ahead(arrivals)))
      ensures got.End? ==> FromNetwork(got.left) && Ahead(arrivals) < old(Ahead(arrivals))
    {
      if arrivals == [] {
        return Nothing(Errno);
      }
      var next := arrivals[0];
      match next
      case Data(bytes) =>
        if |bytes| <= n {
          arrivals := arrivals[1..];
          if bytes == [] {
            return Nothing(Success);
          }
          taken := taken + bytes;
          return Chunk(bytes);
        } else {
          arrivals := [Data(bytes[n..])] + arrivals[1..];
          assert arrivals[1..] == old(arrivals)[1..];
          taken := taken + bytes[..n];
          return Chunk(bytes[..n]);
        }
      case WouldBlock =>
        arrivals := arrivals[1..];
        return Nothing(Success);
      case Eof(left) =>
        arrivals := arrivals[1..];
        return End(if FromNetwork(left) then left else Errno);
      case Reset => return Nothing(ConnLost);
      case Fault => return Nothing(Errno);
    }
  }

  class Reader {
    const bufferSize: nat
    const handler: seq<Packet> -> nat
    var net: Network

    var command: Byte
    var remainingCount: int
    var remainingMult: nat
    var remainingLength: nat
    var payload: array<Byte>
    var pos: nat
    var toProcess: nat

    var buffer: Bytes
    var bufferPos: nat
    var bufferToProcess: nat

    /** The packets of this connection that were given to the handler. */
    var handled: seq<Packet>

    /** What was in the buffer when the connection was made. */
    ghost var leftover: Bytes
    /** The bytes taken in earlier calls, and where they left the machine. */
    ghost var before: Bytes
    ghost var base: Parse
    /** The bytes the machine has taken in this call, up to the first that gets it stuck, and where it is then. */
    ghost var call: Bytes
    ghost var at: Parse

    ghost predicate BufferSafe()
      reads this`buffer, this`bufferPos, this`bufferToProcess
    {
      bufferSize > 0 && bufferPos + bufferToProcess <= |buffer|
    }

    ghost predicate Safe()
      reads this
    {
      && BufferSafe()
      && (remainingCount > 0 ==> pos + toProcess == remainingLength == payload.Length)
      && (remainingCount <= 0 ==> pos == 0 && toProcess == 0 && payload.Length == 0)
    }

    ghost function Buffered(): Bytes
      requires BufferSafe()
      reads this`buffer, this`bufferPos, this`bufferToProcess
    {
      buffer[bufferPos..bufferPos + bufferToProcess]
    }

    /** Everything there is to read on this connection so far. */
    ghost function Received(): Bytes
      reads this`leftover, this`net, net
    {
      leftover + net.taken
    }

    /** The fields as a state of the framing machine, if no command is zero. */
    ghost function View(): Parse
      requires Safe()
      reads this, payload
    {
      Parse(if command == 0 then Idle
            else if remainingCount <= 0 then Length(command, -remainingCount, remainingMult, remainingLength)
            else Payload(command, remainingLength, payload[..pos]),
            handled)
    }

    /** The fields say that the machine is here. */
    ghost predicate Fits(p: Parse)
      requires Safe()
      reads this, payload
    {
      && p.packets == handled
      && match p.stage
         case Idle => command == 0 && remainingCount == 0 && remainingMult == 1 && remainingLength == 0
         case Length(c, count, mult, length) =>
           command == c && -remainingCount == count <= 4 && remainingMult == mult && remainingLength == length
         case Payload(c, size, body) =>
           command == c && remainingCount > 0 && remainingLength == size && payload[..pos] == body
         case _ => false
    }

    /** The machine is where the bytes of this call take it, and the rest is in the buffer, or it is stuck. */
    ghost predicate Tracks()
      requires BufferSafe()
      reads this`before, this`base, this`call, this`at, this`leftover,
        this`buffer, this`bufferPos, this`bufferToProcess, this`net, net
    {
      && before + call <= Received() && at == Call(base, call)
      && (Stuck(at) || Received() == before + call + Buffered())
    }

    /** Without a zero command, the machine is where the bytes taken in earlier calls take it as a whole. */
    ghost predicate History()
      reads this`before, this`base
    {
      !FeedAll(START, before).stage.Zero? ==> base == FeedAll(START, before)
    }

    ghost predicate Resting()
      reads this, payload
    {
      && Safe()
      && (remainingCount > 0 ==> toProcess > 0)
      && (!Stuck(at) ==> Fits(at) && (remainingCount > 0 ==> bufferToProcess == 0))
    }

    /** Between packets, and when the network has nothing more, the fields say where the machine is. */
    ghost predicate AtRest()
      reads this, net, payload
    {
      Resting() && Tracks()
    }

    ghost predicate Valid()
      reads this, net, payload
    {
      AtRest() && History()
    }

    /** A command is due: nothing was taken in this call, or a packet is complete. */
    ghost predicate Due()
      reads this`at, this`call
    {
      Stuck(at) || call == [] || at.stage.Idle?
    }

    ghost function Measure(): nat
      reads this`bufferToProcess, this`net, net
    {
      bufferToProcess + Ahead(net.arrivals)
    }

    constructor (net: Network, handler: seq<Packet> -> nat, bufferSize: nat)
      requires net.taken == [] && bufferSize > 0
      ensures Valid() && this.net == net && this.handler == handler && handled == [] && leftover == [] && at == START
    {
      this.net, this.handler, this.bufferSize := net, handler, bufferSize;
      command, remainingCount, remainingMult, remainingLength := 0, 0, 1, 0;
      payload, pos, toProcess := new Byte[0], 0, 0;
      buffer, bufferPos, bufferToProcess := [], 0, 0;
      handled, leftover, before, base, call, at := [], [], [], START, [], START;
    }

    /** packet__cleanup: the buffer is left as it is. */
    method Cleanup()
      modifies this`command, this`remainingCount, this`remainingMult, this`remainingLength,
        this`payload, this`pos, this`toProcess
      ensures command == 0 && remainingCount == 0 && remainingMult == 1 && remainingLength == 0
      ensures pos == 0 && toProcess == 0 && payload.Length == 0 && fresh(payload)
    {
      command, remainingCount, remainingMult, remainingLength := 0, 0, 1, 0;
      payload, pos, toProcess := new Byte[0], 0, 0;
    }

    /** Another network: bytes left in the buffer stay in front of those of the new connection. */
    method Attach(net: Network)
      requires BufferSafe() && net.taken == []
      modifies this`net, this`handled, this`leftover, this`before, this`base, this`call, this`at
      ensures this.net == net && handled == [] && at == START && Received() == Buffered() && Tracks() && History()
    {
      this.net, handled := net, [];
      leftover, before, base, call, at := Buffered(), [], START, [], START;
    }

    /** A new connection. */
    method Reconnect(net: Network)
      requires BufferSafe() && net.taken == []
      modifies this
      ensures Valid() && this.net == net && handled == [] && at == START && Received() == old(Buffered()) && fresh(payload)
    {
      Cleanup();
      assert Buffered() == old(Buffered());
      Attach(net);
    }

    /** read_header. */
    method ReadHeader() returns (rc: Rc)
      requires BufferSafe() && bufferToProcess == 0
      modifies this`buffer, this`bufferPos, this`bufferToProcess, net
      ensures BufferSafe() && net.taken == old(net.taken) + Buffered()
      ensures Measure() <= old(Measure()) && FromNetwork(rc)
      ensures rc == Success && bufferToProcess == 0 ==> Measure() < old(Measure())
      ensures rc != Success ==> bufferToProcess == 0
    {
      bufferPos, bufferToProcess := 0, 0;
      var got := net.Read(bufferSize);
      match got
      case Chunk(bytes) =>
        buffer, bufferToProcess := bytes, |bytes|;
        return Success;
      case End(_) => return ConnLost;
      case Nothing(status) => return status;
    }

    /** Fill an empty buffer: the machine does not notice. */
    method Refill() returns (rc: Rc)
      requires BufferSafe() && bufferToProcess == 0 && Tracks()
      modifies this`buffer, this`bufferPos, this`bufferToProcess, net
      ensures BufferSafe() && Tracks()
      ensures Measure() <= old(Measure()) && FromNetwork(rc)
      ensures rc == Success && bufferToProcess == 0 ==> Measure() < old(Measure())
      ensures rc != Success ==> bufferToProcess == 0
    {
      assert Buffered() == [];
      rc := ReadHeader();
      assert Received() == old(Received()) + Buffered();
    }

    /** Take n bytes out of the buffer. */
    method Take(n: nat) returns (bytes: Bytes)
      requires BufferSafe() && n <= bufferToProcess && Tracks()
      modifies this`bufferPos, this`bufferToProcess, this`call, this`at
      ensures BufferSafe() && Tracks() && |bytes| == n && bufferToProcess == old(bufferToProcess) - n
      ensures if Stuck(old(at)) then at == old(at) else call == old(call) + bytes && at == Go(old(call), old(at), bytes)
    {
      bytes := buffer[bufferPos..bufferPos + n];
      bufferPos, bufferToProcess := bufferPos + n, bufferToProcess - n;
      if !Stuck(at) {
        assert Received() == before + (call + bytes) + Buffered();
        CallGoes(base, call, bytes);
        call, at := call + bytes, Go(call, at, bytes);
      }
    }

    method TakeByte() returns (b: Byte)
      requires BufferSafe() && bufferToProcess > 0 && Tracks()
      modifies this`bufferPos, this`bufferToProcess, this`call, this`at
      ensures BufferSafe() && Tracks() && bufferToProcess == old(bufferToProcess) - 1
      ensures if Stuck(old(at)) then at == old(at)
              else call != [] && at == if old(call) == [] then Resume(old(at), b) else Continue(old(at), b)
    {
      var bytes := Take(1);
      b := bytes[0];
      assert bytes == [b];
      GoOne(old(call), old(at), b);
    }

    /** The first byte of a packet. */
    method ReadCommand() returns (rc: Rc, paused: bool)
      requires BufferSafe() && Tracks()
      modifies this`command, this`call, this`at, this`buffer, this`bufferPos, this`bufferToProcess, net
      ensures BufferSafe() && Tracks()
      ensures Measure() <= old(Measure()) && FromNetwork(rc)
      ensures rc == Success ==> Measure() < old(Measure())
      ensures paused ==> bufferToProcess == 0 && command == old(command) && at == old(at) && call == old(call)
      ensures !paused ==> rc == Success && if Stuck(old(at)) then at == old(at)
        else call != [] && at == if old(call) == [] then Resume(old(at), command) else Continue(old(at), command)
    {
      if bufferToProcess == 0 {
        rc := Refill();
        if rc != Success {
          return rc, true;
        }
      }
      if bufferToProcess > 0 {
        command := TakeByte();
        return Success, false;
      }
      return Success, true;
    }

    /** The machine is behind a command other than zero, or in the same call. */
    ghost predicate Going()
      reads this`command, this`call
    {
      call != [] || command != 0
    }

    /** The machine meets a fifth length byte, which the code leaves in the buffer. */
    ghost method Break()
      requires BufferSafe() && Tracks() && bufferToProcess > 0
      requires Stuck(at) || (Going() && at.stage.Length? && at.stage.command == command && at.stage.count == 4)
      modifies this`call, this`at
      ensures Tracks() && at == if Stuck(old(at)) then old(at) else Parse(Broken, old(at).packets)
    {
      if !Stuck(at) {
        var b := Buffered()[0];
        assert before + (call + [b]) == before + call + Buffered()[..1] <= Received();
        CallGoes(base, call, [b]);
        GoOne(call, at, b);
        call, at := call + [b], Parse(Broken, at.packets);
      }
    }

    /** The fields while length bytes are read, as a state of the machine. */
    ghost function InLength(): Parse
      requires remainingCount <= 0
      reads this`command, this`remainingCount, this`remainingMult, this`remainingLength, this`handled
    {
      Parse(Length(command, -remainingCount, remainingMult, remainingLength), handled)
    }

    /** The arithmetic of one of the first four length bytes. */
    method AddDigit(byte: Byte)
      requires -4 < remainingCount <= 0
      modifies this`remainingCount, this`remainingMult, this`remainingLength
      ensures remainingCount == old(remainingCount) - 1
      ensures Feed(old(InLength()), byte) == if byte >= 128 then InLength() else Filled(command, remainingLength, [], handled)
    {
      remainingCount := remainingCount - 1;
      remainingLength := Plus(remainingLength, byte, remainingMult);
      remainingMult := remainingMult * 128;
    }

    /** One of the first four length bytes. */
    method ReadDigit() returns (byte: Byte)
      requires BufferSafe() && Tracks() && bufferToProcess > 0 && -4 < remainingCount <= 0
      requires Stuck(at) || (Going() && at == InLength())
      modifies this`remainingCount, this`remainingMult, this`remainingLength,
        this`call, this`at, this`bufferPos, this`bufferToProcess
      ensures BufferSafe() && Tracks() && bufferToProcess == old(bufferToProcess) - 1
      ensures remainingCount == old(remainingCount) - 1
      ensures if Stuck(old(at)) then at == old(at)
              else Going() && at == if byte >= 128 then InLength() else Filled(command, remainingLength, [], handled)
    {
      byte := TakeByte();
      AddDigit(byte);
    }

    /** Where the machine stands in the length bytes: more to come, or the last one taken. */
    ghost predicate Reading(byte: Byte)
      reads this`command, this`remainingCount, this`remainingMult, this`remainingLength, this`handled, this`at, this`call
    {
      && remainingCount <= 0
      && (Stuck(at)
          || (-4 <= remainingCount && Going()
              && at == if byte >= 128 then InLength() else Filled(command, remainingLength, [], handled)))
    }

    /** A length byte, with something in the buffer. */
    method ReadBuffered() returns (rc: Rc, byte: Byte)
      requires BufferSafe() && Tracks() && Reading(128) && bufferToProcess > 0
      modifies this`remainingCount, this`remainingMult, this`remainingLength,
        this`call, this`at, this`bufferPos, this`bufferToProcess
      ensures BufferSafe() && Tracks() && remainingCount < 0
      ensures if rc == Malformed then bufferToProcess == old(bufferToProcess)
              else rc == Success && bufferToProcess < old(bufferToProcess)
      ensures Stuck(old(at)) ==> at == old(at)
      ensures rc == Success ==> Reading(byte) && (Stuck(at) ==> at == old(at))
      ensures rc == Malformed && !Stuck(old(at)) ==> at == Parse(Broken, handled)
    {
      if remainingCount - 1 < -4 {
        Break();
        remainingCount := remainingCount - 1;
        return Malformed, 128;
      }
      byte := ReadDigit();
      rc := Success;
    }

    /** One turn of the loop over the length bytes. */
    method ReadOneMore() returns (rc: Rc, paused: bool, byte: Byte)
      requires BufferSafe() && Tracks() && Reading(128)
      modifies this`remainingCount, this`remainingMult, this`remainingLength,
        this`call, this`at, this`buffer, this`bufferPos, this`bufferToProcess, net
      ensures BufferSafe() && Tracks() && remainingCount <= 0
      ensures Measure() <= old(Measure())
      ensures Stuck(old(at)) ==> at == old(at)
      ensures paused && rc == Success ==> bufferToProcess == 0
      ensures rc == Success ==> Measure() < old(Measure())
      ensures rc != Malformed ==> Reading(if paused then 128 else byte) && (Stuck(at) ==> at == old(at))
      ensures rc == Malformed ==> paused && (Stuck(old(at)) || at == Parse(Broken, handled))
      ensures !paused ==> rc == Success && remainingCount < 0
    {
      byte, rc, paused := 128, Success, true;
      if bufferToProcess == 0 {
        rc := Refill();
      }
      if rc == Success && bufferToProcess > 0 {
        rc, byte := ReadBuffered();
        paused := rc != Success;
      }
    }

    /** The length bytes of a packet, one at a time. */
    method ReadLength() returns (rc: Rc, paused: bool)
      requires BufferSafe() && Tracks() && Reading(128)
      modifies this`remainingCount, this`remainingMult, this`remainingLength,
        this`call, this`at, this`buffer, this`bufferPos, this`bufferToProcess, net
      ensures BufferSafe() && Tracks()
      ensures Measure() <= old(Measure())
      ensures rc == Success ==> Measure() < old(Measure())
      ensures Stuck(old(at)) ==> at == old(at)
      ensures rc != Malformed ==> (Stuck(at) ==> at == old(at))
      ensures paused && rc == Success ==> bufferToProcess == 0
      ensures paused ==> remainingCount <= 0 && (rc != Malformed ==> Reading(128))
      ensures rc == Malformed ==> paused && (Stuck(old(at)) || at == Parse(Broken, handled))
      ensures !paused ==> rc == Success && remainingCount > 0
      ensures !paused ==> Stuck(at) || (Going() && at == Filled(command, remainingLength, [], handled))
    {
      var byte: Byte := 128;
      while byte >= 128
        invariant BufferSafe() && Tracks() && Reading(byte)
        invariant Measure() <= old(Measure()) && (byte < 128 ==> Measure() < old(Measure()) && remainingCount < 0)
        invariant Stuck(at) ==> at == old(at)
        invariant Stuck(old(at)) ==> at == old(at)
        decreases byte >= 128, Measure()
      {
        rc, paused, byte := ReadOneMore();
        if paused {
          return;
        }
      }
      remainingCount := -remainingCount;
      return Success, false;
    }

    /** A packet whose length is known: the machine has got what is in the payload, complete or not. */
    ghost predicate Filling()
      reads this, net, payload
    {
      && Safe() && Tracks() && remainingCount > 0
      && (!Stuck(at) ==> Going() && at == Filled(command, remainingLength, payload[..pos], handled))
      && (!Stuck(at) && toProcess > 0 ==> bufferToProcess == 0)
    }

    /** Copy bytes to the end of what is in the payload. */
    method Store(bytes: Bytes)
      requires Safe() && remainingCount > 0 && |bytes| <= toProcess
      modifies this`pos, this`toProcess, payload
      ensures Safe() && toProcess == old(toProcess) - |bytes|
      ensures payload[..pos] == old(payload[..pos]) + bytes
    {
      forall i | 0 <= i < |bytes| {
        payload[pos + i] := bytes[i];
      }
      pos, toProcess := pos + |bytes|, toProcess - |bytes|;
      assert payload[..pos] == payload[..old(pos)] + payload[old(pos)..pos];
    }

    /** The machine gets the bytes of a payload at once. */
    lemma PayloadFed(call: Bytes, body: Bytes, bytes: Bytes, after: Parse)
      requires |body| < remainingLength && |body| + |bytes| <= remainingLength && (call != [] || command != 0)
      requires after == Go(call, Parse(Payload(command, remainingLength, body), handled), bytes)
      ensures after == Filled(command, remainingLength, body + bytes, handled) && !Stuck(after)
    {
      FeedPayload(command, remainingLength, body, handled, bytes);
      GoIsFeed(call, Parse(Payload(command, remainingLength, body), handled), bytes);
    }

    /** Copy bytes that the machine has got already. */
    method StoreFed(bytes: Bytes)
      requires Safe() && Tracks() && remainingCount > 0 && |bytes| <= toProcess
      requires !Stuck(at) ==> Going() && at == Filled(command, remainingLength, payload[..pos] + bytes, handled)
      requires !Stuck(at) && toProcess > |bytes| ==> bufferToProcess == 0
      modifies this`pos, this`toProcess, payload
      ensures Filling() && toProcess == old(toProcess) - |bytes|
    {
      Store(bytes);
    }

    /** Move to an empty payload what the buffer holds of it. */
    method MoveBuffered()
      requires Safe() && Tracks() && remainingCount > 0 && pos == 0 && toProcess > 0 && bufferToProcess > 0
      requires Stuck(at) || (Going() && at == Parse(Payload(command, remainingLength, []), handled))
      modifies this`pos, this`toProcess, payload, this`call, this`at, this`bufferPos, this`bufferToProcess
      ensures Filling() && bufferToProcess <= old(bufferToProcess)
      ensures Stuck(at) ==> at == old(at)
    {
      var len := if bufferToProcess > remainingLength then remainingLength else bufferToProcess;
      var bytes := Take(len);
      if !Stuck(old(at)) {
        PayloadFed(old(call), [], bytes, at);
        assert payload[..pos] + bytes == [] + bytes;
      }
      StoreFed(bytes);
    }

    /** Make room for the payload, and move what the buffer holds of it. */
    method StartPayload()
      requires BufferSafe() && Tracks() && remainingCount > 0 && pos == 0 && toProcess == 0 && payload.Length == 0
      requires Stuck(at) || (Going() && at == Filled(command, remainingLength, [], handled))
      modifies this`payload, this`pos, this`toProcess, this`call, this`at, this`bufferPos, this`bufferToProcess
      ensures Filling() && bufferToProcess <= old(bufferToProcess) && fresh(payload)
      ensures Stuck(at) ==> at == old(at)
    {
      payload := new Byte[remainingLength];
      pos, toProcess := 0, remainingLength;
      assert payload[..pos] == [];
      if toProcess > 0 && bufferToProcess > 0 {
        MoveBuffered();
      }
    }

    /** Bytes of the payload that did not go through the buffer. */
    ghost method Follow(bytes: Bytes)
      requires BufferSafe() && before + call <= Received() && at == Call(base, call)
      requires Stuck(at) || (bufferToProcess == 0 && Received() == before + call + bytes)
      modifies this`call, this`at
      ensures Tracks()
      ensures if Stuck(old(at)) then at == old(at) else call == old(call) + bytes && at == Go(old(call), old(at), bytes)
    {
      if !Stuck(at) {
        CallGoes(base, call, bytes);
        call, at := call + bytes, Go(call, at, bytes);
        assert Received() == before + call;
      }
    }

    /** Bytes just received, behind what the machine has got. */
    method StoreReceived(bytes: Bytes)
      requires Safe() && remainingCount > 0 && 0 < |bytes| <= toProcess
      requires before + call <= Received() && at == Call(base, call)
      requires Stuck(at) || (bufferToProcess == 0 && Received() == before + call + bytes)
      requires Stuck(at) || (Going() && at == Parse(Payload(command, remainingLength, payload[..pos]), handled))
      modifies this`pos, this`toProcess, payload, this`call, this`at
      ensures Filling() && toProcess == old(toProcess) - |bytes|
      ensures Stuck(at) ==> at == old(at)
    {
      Follow(bytes);
      if !Stuck(old(at)) {
        PayloadFed(old(call), payload[..pos], bytes, at);
      }
      StoreFed(bytes);
    }

    /** One read of payload bytes. */
    method ReadSome() returns (rc: Rc, paused: bool)
      requires Filling() && toProcess > 0
      modifies this`pos, this`toProcess, payload, this`call, this`at, net
      ensures Filling() && Measure() <= old(Measure()) && FromNetwork(rc)
      ensures Stuck(at) ==> at == old(at)
      ensures rc == Success ==> Measure() < old(Measure())
      ensures if paused then toProcess == old(toProcess) else rc == Success && toProcess < old(toProcess)
    {
      var got := net.Read(toProcess);
      match got {
        case Chunk(bytes) =>
          assert Received() == old(Received()) + bytes;
          StoreReceived(bytes);
          rc, paused := Success, false;
        case Nothing(status) => rc, paused := status, true;
        case End(left) => rc, paused := left, true;
      }
    }

    /** The rest of the payload. */
    method ReadPayload() returns (rc: Rc, paused: bool)
      requires Filling()
      modifies this`pos, this`toProcess, payload, this`call, this`at, net
      ensures Filling() && Measure() <= old(Measure()) && FromNetwork(rc)
      ensures Stuck(at) ==> at == old(at)
      ensures if paused then toProcess > 0 else rc == Success && toProcess == 0
      ensures rc == Success && old(toProcess) > 0 ==> Measure() < old(Measure())
    {
      while toProcess > 0
        invariant Filling() && Measure() <= old(Measure())
        invariant Stuck(at) ==> at == old(at)
        invariant toProcess == old(toProcess) || Measure() < old(Measure())
        decreases toProcess
      {
        rc, paused := ReadSome();
        if paused {
          return;
        }
      }
      return Success, false;
    }

    /** Hand a complete packet to the handler. */
    method Finish() returns (rc: Rc)
      requires Filling() && toProcess == 0
      modifies this`command, this`remainingCount, this`remainingMult, this`remainingLength,
        this`payload, this`pos, this`toProcess, this`handled
      ensures AtRest() && fresh(payload) && rc != Malformed && (Stuck(at) || at.stage.Idle?)
    {
      assert payload[..pos] == payload[..];
      handled := handled + [Packet(command, payload[..])];
      var code := handler(handled);
      Cleanup();
      return if code == 0 then Success else Handler(code);
    }

    /** The command is known, or the machine is stuck. */
    ghost predicate Begun()
      reads this, net, payload
    {
      && Safe() && Tracks() && (remainingCount > 0 ==> toProcess > 0)
      && (!Stuck(at) ==>
          && Going() && Fits(at) && !at.stage.Idle?
          && if remainingCount <= 0 then -4 <= remainingCount else bufferToProcess == 0)
    }

    /** The command of a packet. */
    method ReadBegin() returns (rc: Rc, paused: bool)
      requires AtRest() && command == 0 && Due()
      modifies this`command, this`call, this`at, this`buffer, this`bufferPos, this`bufferToProcess, net
      ensures Measure() <= old(Measure()) && FromNetwork(rc)
      ensures rc == Success ==> Measure() < old(Measure())
      ensures if paused then AtRest() && bufferToProcess == 0 else rc == Success && Begun()
      ensures at.stage.Broken? ==> old(at).stage.Broken?
    {
      rc, paused := ReadCommand();
    }

    /** The length of a packet, and the beginning of its payload. */
    method ReadHead() returns (rc: Rc, paused: bool)
      requires Begun() && remainingCount <= 0
      modifies this`remainingCount, this`remainingMult, this`remainingLength, this`payload, this`pos,
        this`toProcess, this`call, this`at, this`buffer, this`bufferPos, this`bufferToProcess, net
      ensures payload == old(payload) || fresh(payload)
      ensures Measure() <= old(Measure()) && (rc == Success ==> Measure() < old(Measure()))
      ensures if paused then AtRest() && (rc == Success ==> bufferToProcess == 0) else rc == Success && Filling()
      ensures rc == Malformed ==> at == if Stuck(old(at)) then old(at) else Parse(Broken, handled)
      ensures rc != Malformed ==> (Stuck(at) ==> at == old(at))
    {
      rc, paused := ReadLength();
      if !paused {
        StartPayload();
      }
    }

    /** Command and length, until the length is known. */
    method ReadStart() returns (rc: Rc, paused: bool)
      requires AtRest() && (command == 0 ==> Due())
      modifies this`command, this`remainingCount, this`remainingMult, this`remainingLength, this`payload, this`pos,
        this`toProcess, this`call, this`at, this`buffer, this`bufferPos, this`bufferToProcess, net
      ensures payload == old(payload) || fresh(payload)
      ensures Measure() <= old(Measure())
      ensures paused ==> AtRest() && (rc == Success ==> Measure() < old(Measure()) && bufferToProcess == 0)
      ensures !paused ==> rc == Success && Filling() && (toProcess == 0 ==> Measure() < old(Measure()))
      ensures rc == Malformed ==> Broke() || old(at).stage.Broken?
      ensures rc != Malformed && at.stage.Broken? ==> old(at).stage.Broken?
    {
      rc, paused := Success, false;
      if command == 0 {
        rc, paused := ReadBegin();
      }
      if !paused && remainingCount <= 0 {
        rc, paused := ReadHead();
      }
    }

    /** The stream is broken here, and the packets before that have been handled. */
    ghost predicate Broke()
      reads this`at, this`handled
    {
      at.stage.Zero? || at == Parse(Broken, handled)
    }

    /** The payload, and the handler if it is complete. */
    method ReadRest() returns (rc: Rc)
      requires Filling()
      modifies this`command, this`remainingCount, this`remainingMult, this`remainingLength, this`payload, this`pos,
        this`toProcess, this`call, this`at, this`handled, payload, net
      ensures AtRest() && (payload == old(payload) || fresh(payload))
      ensures Measure() <= old(Measure()) && (rc == Success && old(toProcess) > 0 ==> Measure() < old(Measure()))
      ensures rc != Malformed && (Stuck(at) ==> at == old(at))
      ensures bufferToProcess == 0 || Due()
    {
      var paused;
      rc, paused := ReadPayload();
      if !paused {
        rc := Finish();
      }
    }

    /** packet__read_single: at most one packet. */
    method ReadSingle() returns (rc: Rc)
      requires AtRest() && Due()
      modifies this`command, this`remainingCount, this`remainingMult, this`remainingLength, this`payload, this`pos,
        this`toProcess, this`call, this`at, this`buffer, this`bufferPos, this`bufferToProcess, this`handled, payload, net
      ensures AtRest() && (payload == old(payload) || fresh(payload))
      ensures Measure() <= old(Measure()) && (rc == Success ==> Measure() < old(Measure()))
      ensures rc == Malformed ==> Broke() || old(at).stage.Broken?
      ensures rc == Success && at.stage.Broken? ==> old(at).stage.Broken?
      ensures rc == Success ==> bufferToProcess == 0 || Due()
    {
      var paused;
      rc, paused := ReadStart();
      if !paused {
        rc := ReadRest();
      }
    }

    /** The bytes taken so far are those of a call that is over. */
    ghost method NextCall()
      requires Valid() && !Stuck(at)
      modifies this`before, this`base, this`call
      ensures Valid() && call == [] && base == at
      ensures before == old(before + call)
    {
      CallFollows(before, base, call);
      before, base, call := before + call, at, [];
    }

    /** The loop of packet__read. */
    method ReadPackets() returns (rc: Rc)
      requires AtRest() && call == [] && !Stuck(at)
      modifies this`command, this`remainingCount, this`remainingMult, this`remainingLength, this`payload, this`pos,
        this`toProcess, this`call, this`at, this`buffer, this`bufferPos, this`bufferToProcess, this`handled, payload, net
      ensures AtRest() && (payload == old(payload) || fresh(payload))
      ensures rc == Success ==> Measure() < old(Measure()) && bufferToProcess == 0 && !at.stage.Broken?
      ensures rc == Malformed ==> Broke()
    {
      rc := ReadSingle();
      while rc == Success && bufferToProcess > 0
        invariant AtRest() && (payload == old(payload) || fresh(payload))
        invariant rc == Success ==> Measure() < old(Measure())
        invariant rc == Malformed ==> Broke()
        invariant rc == Success ==> !at.stage.Broken? && (bufferToProcess == 0 || Due())
        decreases rc == Success, Measure()
      {
        rc := ReadSingle();
      }
    }

    /** A call of the machine on the bytes it takes. */
    method ReadCall() returns (rc: Rc)
      requires Valid() && !Stuck(at)
      modifies this`before, this`base, this`command, this`remainingCount, this`remainingMult, this`remainingLength, this`payload, this`pos,
        this`toProcess, this`call, this`at, this`buffer, this`bufferPos, this`bufferToProcess, this`handled, payload, net
      ensures Valid() && (payload == old(payload) || fresh(payload))
      ensures before == old(before + call) && base == old(at)
      ensures rc == Success ==> Measure() < old(Measure()) && bufferToProcess == 0 && !at.stage.Broken?
      ensures rc == Malformed ==> Broke()
    {
      NextCall();
      rc := ReadPackets();
    }

    /**
     packet__read. It is exactly a call of the machine on the bytes it takes, and if it succeeds these are
     all that have come in. Without a zero command, the packets handled and the packet begun are those of
     all the bytes received so far, in whatever pieces they arrived.
     */
    method Read() returns (rc: Rc)
      requires Valid() && !Stuck(at)
      modifies this`before, this`base, this`command, this`remainingCount, this`remainingMult, this`remainingLength, this`payload, this`pos,
        this`toProcess, this`call, this`at, this`buffer, this`bufferPos, this`bufferToProcess, this`handled, payload, net
      ensures Valid() && (payload == old(payload) || fresh(payload))
      ensures before == old(before + call) && at == Call(old(at), call)
      ensures rc == Success ==> Measure() < old(Measure())
      ensures rc == Success && !Stuck(at) ==> Fits(at) && Received() == before + call
      ensures rc == Success && !Stuck(FeedAll(START, Received())) ==> View() == FeedAll(START, Received())
      ensures rc == Success ==> !FeedAll(START, Received()).stage.Broken?
      ensures rc == Malformed ==>
        var p := FeedAll(START, Received());
        p.stage.Zero? || p == Parse(Broken, handled)
    {
      rc := ReadCall();
      Whole(rc);
    }

    /** What the calls have made of the bytes received. */
    lemma Whole(rc: Rc)
      requires Valid() && (rc == Success ==> bufferToProcess == 0 && !at.stage.Broken?) && (rc == Malformed ==> Broke())
      ensures rc == Success && !Stuck(at) ==> Received() == before + call
      ensures rc == Success && !Stuck(FeedAll(START, Received())) ==> View() == FeedAll(START, Received())
      ensures rc == Success ==> !FeedAll(START, Received()).stage.Broken?
      ensures rc == Malformed ==>
        var p := FeedAll(START, Received());
        p.stage.Zero? || p == Parse(Broken, handled)
    {
      Prefix(before + call, Received());
      if !FeedAll(START, Received()).stage.Zero? {
        CallFollows(before, base, call);
      }
    }
  }

  /** Without a zero command, a call takes the machine where all the bytes take it. */
  lemma CallFollows(before: Bytes, base: Parse, call: Bytes)
    requires !FeedAll(START, before).stage.Zero? ==> base == FeedAll(START, before)
    ensures !FeedAll(START, before + call).stage.Zero? ==> Call(base, call) == FeedAll(START, before + call)
    ensures !ZeroCommand(FeedAll(START, before + call))
  {
    FeedMore(START, before, call);
    if FeedAll(START, before).stage.Zero? {
      StuckStays(FeedAll(START, before), call);
    } else if !FeedAll(base, call).stage.Zero? {
      FedCommand(START, before);
      CallIsFeed(base, call);
    }
    FedCommand(START, before + call);
  }

  /** What got the machine stuck is still there later. */
  lemma Prefix(used: Bytes, all: Bytes)
    requires used <= all
    ensures Stuck(FeedAll(START, used)) ==> FeedAll(START, all) == FeedAll(START, used)
  {
    var rest := all[|used|..];
    assert all == used + rest;
    FeedMore(START, used, rest);
    if Stuck(FeedAll(START, used)) {
      StuckStays(FeedAll(START, used), rest);
    }
  }

  // ---------------------------------------------------------------- after a new connection

  /** A PINGREQ. */
  const PING: Bytes := [0xC0, 0]

  lemma PingIsWhole()
    ensures FeedAll(START, PING) == Parse(Idle, [Packet(0xC0, [])])
  {
    assert PING[..1] == [0xC0] && PING[..1][..0] == [];
    assert FeedAll(START, [0xC0]) == Parse(Length(0xC0, 0, 1, 0), []);
  }

  /** A packet is begun, or the length was bad, and none is complete. */
  predicate Under(p: Parse) {
    && p.packets == []
    && match p.stage
       case Length(_, _, mult, _) => mult > 0
       case Payload(_, size, body) => |body| < size
       case Broken => true
       case _ => false
  }

  lemma ContinueUnder(p: Parse, b: Byte)
    requires p == START || Under(p)
    ensures Under(Continue(p, b)) || Continue(p, b).packets != []
  {
  }

  /** After some bytes a packet is complete, or one is under way. */
  lemma {:induction false} CalledUnder(s: Bytes)
    requires s != []
    ensures Under(Call(START, s)) || Call(START, s).packets != []
  {
    var front, b := s[..|s| - 1], s[|s| - 1];
    if front == [] {
      assert s == [b] && s[1..] == [];
      assert Call(START, s) == Continue(START, b);
    } else {
      CalledUnder(front);
      assert s == front + [b];
      CallMore(START, front, b);
      if Under(Call(START, front)) { ContinueUnder(Call(START, front), b); } else { ContinueKeeps(Call(START, front), b); }
    }
  }

  lemma ContinueKeeps(p: Parse, b: Byte)
    ensures p.packets <= Continue(p, b).packets
  {
  }

  /** Two bytes behind a packet under way are not read as a packet of their own. */
  lemma PingIsSwallowed(p: Parse)
    requires Under(p)
    ensures Continue(Continue(p, 0xC0), 0).packets != [Packet(0xC0, [])]
  {
    match p.stage
    case Length(_, _, mult, length) =>
      var n := Plus(length, 0xC0, mult);
      assert n == length + 64 * mult > 0 && Plus(n, 0, mult * 128) == n;
    case Payload(command, size, body) =>
      var q := Filled(command, size, body + [0xC0], []);
      var ps := Continue(q, 0).packets;
      assert Continue(p, 0xC0) == q;
      assert |ps| > 0 ==> |ps[0].body| > 0;
    case _ =>
  }

  /**
   The packets of a new connection are read as such, for every stream of whole packets, exactly if
   nothing was left in the buffer: a reconnect does not empty it.
   */
  lemma NewConnectionIsClean(leftover: Bytes)
    ensures (forall s: Bytes | FeedAll(START, s).stage.Idle? ::
               Call(START, leftover + s).packets == FeedAll(START, s).packets)
       <==> leftover == []
  {
    if leftover == [] {
      forall s: Bytes | FeedAll(START, s).stage.Idle?
        ensures Call(START, leftover + s).packets == FeedAll(START, s).packets
      {
        assert leftover + s == s;
        CallIsFeed(START, s);
      }
    } else {
      CalledUnder(leftover);
      PingIsWhole();
      if Under(Call(START, leftover)) {
        PingIsSwallowed(Call(START, leftover));
        CallMore(START, leftover, 0xC0);
        CallMore(START, leftover + [0xC0], 0);
        assert leftover + PING == leftover + [0xC0] + [0];
      } else {
        assert leftover + [] == leftover;
        assert FeedAll(START, []).stage.Idle?;
      }
    }
  }
}
