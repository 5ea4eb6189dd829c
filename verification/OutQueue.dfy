/** The queue of outgoing packets: a linked list, written to the socket as far as the socket takes it. */
module OutQueue {
  import opened Basics

  datatype Rc = Success | ConnLost | Tls | Errno

  /** A packet as it was queued. */
  datatype Item = Item(command: Byte, mid: nat, data: Bytes)

  /** PUBLISH with QoS 0, whatever the dup and retain bits. */
  predicate IsQos0(command: Byte) { command / 16 == 3 && command / 2 % 4 == 0 }

  predicate IsDisconnect(command: Byte) { command / 16 == 14 }

  // ---------------------------------------------------------------- what the socket should see

  function Stream(items: seq<Item>): Bytes {
    if items == [] then [] else Stream(items[..|items| - 1]) + items[|items| - 1].data
  }

  function Qos0Mids(items: seq<Item>): seq<nat> {
    if items == [] then []
    else
      var last := items[|items| - 1];
      Qos0Mids(items[..|items| - 1]) + if IsQos0(last.command) then [last.mid] else []
  }

  predicate NoDisconnect(items: seq<Item>) { forall i | 0 <= i < |items| :: !IsDisconnect(items[i].command) }

  /** The packets up to the first DISCONNECT, and that one. */
  function UntilDisconnect(items: seq<Item>): seq<Item> {
    if items == [] then []
    else if IsDisconnect(items[0].command) then [items[0]]
    else [items[0]] + UntilDisconnect(items[1..])
  }

  /** Number of packets, from the first on, that lie whole within the first n bytes of the stream. */
  function Whole(items: seq<Item>, n: nat): nat {
    if items == [] || |items[0].data| > n then 0 else 1 + Whole(items[1..], n - |items[0].data|)
  }

  /**
   Everything queued on a connection, how many packets are off the queue, how far the first one on
   it is written, what the socket got, the callbacks made, and where the writer stands: `called`
   between the callback for the first packet and its unlinking, not `open` after a DISCONNECT.
   */
  datatype History = History(queued: seq<Item>, gone: nat, pos: nat, sent: Bytes, callbacks: seq<nat>,
                             called: bool, open: bool)

  const NOTHING := History([], 0, 0, [], [], false, true)

  /** The first packet on the queue is written to its end. */
  predicate AtEnd(h: History) { h.gone < |h.queued| && h.pos == |h.queued[h.gone].data| }

  ghost predicate InOrder(h: History) {
    && h.gone <= |h.queued| && NoDisconnect(h.queued[..h.gone]) && NotEmpty(h.queued)
    && (if h.gone < |h.queued| then h.pos <= |h.queued[h.gone].data| else h.pos == 0)
    && h.sent == Stream(h.queued[..h.gone]) + Head(h)
    && (h.called ==> AtEnd(h) && !IsDisconnect(h.queued[h.gone].command))
    && (!h.open ==> AtEnd(h) && IsDisconnect(h.queued[h.gone].command))
    && h.callbacks == Qos0Mids(h.queued[..if h.called then h.gone + 1 else h.gone])
  }

  predicate NotEmpty(items: seq<Item>) { forall i | 0 <= i < |items| :: items[i].data != [] }

  /** The part of the first packet on the queue that is sent. */
  ghost function Head(h: History): Bytes
    requires h.gone <= |h.queued|
    requires if h.gone < |h.queued| then h.pos <= |h.queued[h.gone].data| else h.pos == 0
  {
    if h.gone < |h.queued| then h.queued[h.gone].data[..h.pos] else []
  }

  /** The callback that the writer is about to make. */
  function Due(h: History): seq<nat> {
    if AtEnd(h) && !h.called && IsQos0(h.queued[h.gone].command) then [h.queued[h.gone].mid] else []
  }

  // ---------------------------------------------------------------- steps

  /** The writer does not hold the lock while it writes, so that packets may be queued between any two steps. */
  datatype Event =
    | Queueing(item: Item)  // packet__queue_append
    | Sending(n: nat)       // a write of which the socket takes n bytes, or what there is
    | Calling               // the packet is complete: callback, or shutdown after a DISCONNECT
    | Unlinking             // packet__get_next_out

  function Queued(h: History, item: Item): History { h.(queued := h.queued + [item]) }

  function Wrote(h: History, n: nat): History
    requires h.gone < |h.queued| && h.pos + n <= |h.queued[h.gone].data|
  {
    h.(pos := h.pos + n, sent := h.sent + h.queued[h.gone].data[h.pos..h.pos + n])
  }

  function Called(h: History): History
    requires h.gone < |h.queued|
  {
    var item := h.queued[h.gone];
    if IsDisconnect(item.command) then h.(open := false)
    else h.(called := true, callbacks := h.callbacks + if IsQos0(item.command) then [item.mid] else [])
  }

  function Unlinked(h: History): History { h.(gone := h.gone + 1, pos := 0, called := false) }

  predicate Enabled(h: History, e: Event) {
    match e
    case Queueing(item) => item.data != []
    case Sending(n) => h.gone < |h.queued| && h.pos < |h.queued[h.gone].data|
    case Calling => AtEnd(h) && !h.called && h.open
    case Unlinking => h.called
  }

  function Step(h: History, e: Event): History {
    if !Enabled(h, e) then h
    else
      match e
      case Queueing(item) => Queued(h, item)
      case Sending(n) => Wrote(h, Min(n, |h.queued[h.gone].data| - h.pos))
      case Calling => Called(h)
      case Unlinking => Unlinked(h)
  }

  function Run(h: History, es: seq<Event>): History
    decreases |es|
  {
    if es == [] then h else Run(Step(h, es[0]), es[1..])
  }

  lemma QueuedInOrder(h: History, item: Item)
    requires InOrder(h) && item.data != []
    ensures InOrder(Queued(h, item))
  {
    var q := Queued(h, item).queued;
    var done := if h.called then h.gone + 1 else h.gone;
    assert q[..h.gone] == h.queued[..h.gone] && q[..done] == h.queued[..done];
    if h.gone == |h.queued| {
      assert q[h.gone].data[..0] == [];
    }
  }

  lemma Slices(data: Bytes, pos: nat, n: nat)
    requires pos + n <= |data|
    ensures data[..pos] + data[pos..pos + n] == data[..pos + n]
  {
  }

  lemma SentOn(front: Bytes, data: Bytes, pos: nat, n: nat, sent: Bytes)
    requires pos + n <= |data| && sent == front + data[..pos]
    ensures sent + data[pos..pos + n] == front + data[..pos + n]
  {
    Slices(data, pos, n);
    Regroup(front, data[..pos], data[pos..pos + n]);
  }

  lemma WroteInOrder(h: History, n: nat)
    requires InOrder(h) && h.gone < |h.queued| && h.pos + n <= |h.queued[h.gone].data|
    ensures InOrder(Wrote(h, n))
  {
    SentOn(Stream(h.queued[..h.gone]), h.queued[h.gone].data, h.pos, n, h.sent);
  }

  lemma CalledInOrder(h: History)
    requires InOrder(h) && AtEnd(h) && !h.called && h.open
    ensures InOrder(Called(h))
  {
    var done := h.queued[..h.gone + 1];
    assert done[..h.gone] == h.queued[..h.gone];
  }

  lemma UnlinkedInOrder(h: History)
    requires InOrder(h) && h.called
    ensures InOrder(Unlinked(h))
  {
    var done := h.queued[..h.gone + 1];
    assert done[..h.gone] == h.queued[..h.gone];
    assert h.queued[h.gone].data[..h.pos] == h.queued[h.gone].data;
    var u := Unlinked(h);
    assert Head(u) == [];
    assert Stream(done) + [] == Stream(done);
  }

  lemma SendingInOrder(h: History, n: nat)
    requires InOrder(h) && Enabled(h, Sending(n))
    ensures InOrder(Step(h, Sending(n)))
  {
    WroteInOrder(h, Min(n, |h.queued[h.gone].data| - h.pos));
  }

  lemma StepInOrder(h: History, e: Event)
    requires InOrder(h)
    ensures InOrder(Step(h, e))
  {
    if Enabled(h, e) {
      match e
      case Queueing(item) => QueuedInOrder(h, item);
      case Sending(n) => SendingInOrder(h, n);
      case Calling => CalledInOrder(h);
      case Unlinking => UnlinkedInOrder(h);
    }
  }

  /** What the writer does with a complete packet. */
  lemma CompleteInOrder(h: History)
    requires InOrder(h) && AtEnd(h) && !h.called
    ensures
      var t := Step(Step(h, Calling), Unlinking);
      && InOrder(t)
      && t == if IsDisconnect(h.queued[h.gone].command) then h.(open := false) else Unlinked(Called(h))
  {
    StepInOrder(h, Calling);
    StepInOrder(Step(h, Calling), Unlinking);
  }

  lemma {:induction false} RunInOrder(h: History, es: seq<Event>)
    requires InOrder(h)
    ensures InOrder(Run(h, es))
    decreases |es|
  {
    if es != [] {
      StepInOrder(h, es[0]);
      RunInOrder(Step(h, es[0]), es[1..]);
    }
  }

  // ---------------------------------------------------------------- what holds of every history

  lemma {:induction false} StreamAppend(a: seq<Item>, b: seq<Item>)
    ensures Stream(a + b) == Stream(a) + Stream(b)
    decreases |b|
  {
    if b == [] {
      assert a + b == a;
    } else {
      var front, last := b[..|b| - 1], b[|b| - 1];
      StreamAppend(a, front);
      StreamSnoc(a + front, last);
      assert a + b == (a + front) + [last];
      Regroup(Stream(a), Stream(front), last.data);
    }
  }

  lemma StreamSnoc(items: seq<Item>, item: Item)
    ensures Stream(items + [item]) == Stream(items) + item.data
  {
    assert (items + [item])[..|items|] == items;
  }

  lemma Regroup(a: Bytes, b: Bytes, c: Bytes)
    ensures (a + b) + c == a + (b + c)
  {
  }

  lemma {:induction false} UntilSplits(a: seq<Item>, b: seq<Item>)
    requires NoDisconnect(a)
    ensures UntilDisconnect(a + b) == a + UntilDisconnect(b)
  {
    if a == [] {
      assert a + b == b;
    } else {
      UntilSplits(a[1..], b);
      assert (a + b)[1..] == a[1..] + b;
    }
  }

  lemma {:induction false} UntilIsPrefix(items: seq<Item>)
    ensures UntilDisconnect(items) <= items
  {
    if items != [] {
      UntilIsPrefix(items[1..]);
    }
  }

  lemma StreamPrefix(a: seq<Item>, b: seq<Item>)
    requires a <= b
    ensures Stream(a) <= Stream(b)
  {
    assert b == a + b[|a|..];
    StreamAppend(a, b[|a|..]);
  }

  lemma StreamOne(item: Item)
    ensures Stream([item]) == item.data
  {
    assert [item][..0] == [];
  }

  lemma HeadFirst(rest: seq<Item>)
    requires rest != []
    ensures rest[0].data <= Stream(UntilDisconnect(rest))
  {
    StreamOne(rest[0]);
    StreamPrefix([rest[0]], UntilDisconnect(rest));
  }

  /** With a part of the next packet behind the packets gone, the stream has not passed the DISCONNECT. */
  lemma NotPassed(gone: seq<Item>, rest: seq<Item>, head: Bytes)
    requires NoDisconnect(gone) && (if rest == [] then head == [] else head <= rest[0].data)
    ensures Stream(gone) + head <= Stream(UntilDisconnect(gone + rest))
  {
    UntilSplits(gone, rest);
    StreamAppend(gone, UntilDisconnect(rest));
    if rest != [] {
      HeadFirst(rest);
    }
  }

  lemma FirstOff(items: seq<Item>, k: nat)
    requires 0 < k <= |items|
    ensures |Stream(items[..k])| == |items[0].data| + |Stream(items[1..][..k - 1])|
  {
    assert items[..k] == [items[0]] + items[1..][..k - 1];
    StreamAppend([items[0]], items[1..][..k - 1]);
    StreamOne(items[0]);
  }

  lemma WholeNone(items: seq<Item>, n: nat)
    requires items == [] || n < |items[0].data|
    ensures Whole(items, n) == 0
  {
  }

  /** The packets off the queue, and the first one on it if it is complete, are those the socket has got whole. */
  lemma {:induction false} WholeIs(items: seq<Item>, k: nat, pos: nat)
    requires k <= |items| && NotEmpty(items)
    requires if k < |items| then pos <= |items[k].data| else pos == 0
    ensures Whole(items, |Stream(items[..k])| + pos) == if k < |items| && pos == |items[k].data| then k + 1 else k
    decreases k
  {
    if k > 0 {
      WholeIs(items[1..], k - 1, pos);
      FirstOff(items, k);
    } else if items != [] && pos == |items[0].data| {
      WholeNone(items[1..], 0);
    }
  }

  /** The first packet, complete, adds its callback and nothing else. */
  lemma HeadMids(h: History)
    requires InOrder(h)
    ensures h.callbacks + Due(h) == Qos0Mids(h.queued[..if AtEnd(h) then h.gone + 1 else h.gone])
  {
    if AtEnd(h) {
      var done := h.queued[..h.gone + 1];
      assert done[..h.gone] == h.queued[..h.gone];
      DisconnectIsNotPublish(h.queued[h.gone].command);
    }
    assert h.callbacks + [] == h.callbacks;
  }

  lemma DisconnectIsNotPublish(command: Byte)
    ensures !(IsDisconnect(command) && IsQos0(command))
  {
  }

  /**
   What the socket has got is the beginning of the queued packets, one after the other, and ends at
   the latest with the first DISCONNECT.
   */
  lemma SentIsOrdered(h: History)
    requires InOrder(h)
    ensures h.sent <= Stream(UntilDisconnect(h.queued)) <= Stream(h.queued)
  {
    assert h.queued == h.queued[..h.gone] + h.queued[h.gone..];
    NotPassed(h.queued[..h.gone], h.queued[h.gone..], Head(h));
    UntilIsPrefix(h.queued);
    StreamPrefix(UntilDisconnect(h.queued), h.queued);
  }

  /**
   The callbacks made, with the one the writer is about to make, are those of exactly the QoS 0
   PUBLISH packets all bytes of which are sent, once each, in order.
   */
  lemma CallbackIsOnce(h: History)
    requires InOrder(h)
    ensures Whole(h.queued, |h.sent|) <= |h.queued|
    ensures h.callbacks + Due(h) == Qos0Mids(h.queued[..Whole(h.queued, |h.sent|)])
  {
    assert |h.sent| == |Stream(h.queued[..h.gone])| + h.pos;
    WholeIs(h.queued, h.gone, h.pos);
    HeadMids(h);
  }

  /** Under any interleaving of queueing and partial or blocked writes, from an empty queue. */
  lemma AnyInterleaving(es: seq<Event>)
    ensures
      var h := Run(NOTHING, es);
      && h.sent <= Stream(UntilDisconnect(h.queued)) <= Stream(h.queued)
      && Whole(h.queued, |h.sent|) <= |h.queued|
      && h.callbacks + Due(h) == Qos0Mids(h.queued[..Whole(h.queued, |h.sent|)])
  {
    assert Qos0Mids([]) == [] && Stream([]) == [];
    RunInOrder(NOTHING, es);
    SentIsOrdered(Run(NOTHING, es));
    CallbackIsOnce(Run(NOTHING, es));
  }

  // ---------------------------------------------------------------- the socket

  /** What the socket does with a write: takes some bytes, none for now, or fails. */
  datatype Answer = Takes(n: nat) | Refuses(rc: Rc)

  class Socket {
    var answers: seq<Answer>
    var open: bool
    ghost var sent: Bytes
    /** How often nothing was taken. */
    ghost var refusals: nat

    constructor (answers: seq<Answer>)
      ensures this.answers == answers && open && sent == [] && refusals == 0
    {
      this.answers, open, sent, refusals := answers, true, [], 0;
    }

    /** At least one byte taken, or a status. */
    method Write(data: Bytes) returns (n: nat, rc: Rc)
      requires open && data != []
      modifies this`answers, this`sent, this`refusals
      ensures n <= |data| && sent == old(sent) + data[..n]
      ensures refusals == old(refusals) + if n == 0 then 1 else 0
    {
      if answers == [] {
        refusals := refusals + 1;
        return 0, Errno;
      }
      var answer := answers[0];
      answers := answers[1..];
      match answer
      case Refuses(status) =>
        refusals := refusals + 1;
        return 0, status;
      case Takes(some) =>
        if some == 0 {
          refusals := refusals + 1;
          return 0, Success;
        }
        n := if some < |data| then some else |data|;
        sent := sent + data[..n];
        return n, Success;
    }
  }

  // ---------------------------------------------------------------- the list

  class Node {
    const item: Item
    const packetLength: nat
    var pos: nat
    var toProcess: nat
    var next: Node?

    constructor (item: Item, packetLength: nat)
      ensures this.item == item && this.packetLength == packetLength
    {
      this.item, this.packetLength := item, packetLength;
      pos, toProcess, next := 0, 0, null;
    }
  }

  function TotalLength(nodes: seq<Node>): nat {
    if nodes == [] then 0 else nodes[0].packetLength + TotalLength(nodes[1..])
  }

  ghost function Items(nodes: seq<Node>): seq<Item> { seq(|nodes|, i requires 0 <= i < |nodes| => nodes[i].item) }

  lemma ItemsSnoc(nodes: seq<Node>, node: Node)
    ensures Items(nodes + [node]) == Items(nodes) + [node.item]
  {
  }

  lemma TailSnoc(queued: seq<Item>, gone: nat, item: Item)
    requires gone <= |queued|
    ensures (queued + [item])[gone..] == queued[gone..] + [item]
  {
  }

  lemma SliceOfTail(data: Bytes, pos: nat, n: nat)
    requires pos + n <= |data|
    ensures data[pos..][..n] == data[pos..pos + n]
  {
  }

  lemma ItemsTail(nodes: seq<Node>, queued: seq<Item>, gone: nat)
    requires nodes != [] && gone <= |queued| && Items(nodes) == queued[gone..]
    ensures gone < |queued| && nodes[0].item == queued[gone] && Items(nodes[1..]) == queued[gone + 1..]
  {
    assert Items(nodes)[0] == queued[gone..][0];
    assert Items(nodes[1..]) == Items(nodes)[1..];
  }

  lemma {:induction false} TotalSnoc(nodes: seq<Node>, node: Node)
    ensures TotalLength(nodes + [node]) == TotalLength(nodes) + node.packetLength
  {
    if nodes == [] {
      assert nodes + [node] == [node] && [node][1..] == [];
    } else {
      TotalSnoc(nodes[1..], node);
      assert (nodes + [node])[1..] == nodes[1..] + [node];
    }
  }

  class Queue {
    const sock: Socket
    var outPacket: Node?
    var outPacketLast: Node?
    var outPacketCount: nat
    var outPacketBytes: nat
    /** Message ids given to the publish callback. */
    var callbacks: seq<nat>

    ghost var nodes: seq<Node>
    ghost var queued: seq<Item>
    ghost var gone: nat

    /** The links, counters and ends describe the list. */
    ghost predicate Linked()
      reads this`nodes, this`outPacket, this`outPacketLast, this`outPacketCount, this`outPacketBytes, nodes`next
    {
      && (forall i {:trigger nodes[i].next} | 0 <= i < |nodes| :: nodes[i].next == if i + 1 < |nodes| then nodes[i + 1] else null)
      && (forall i, j | 0 <= i < j < |nodes| :: nodes[i] != nodes[j])
      && outPacket == (if nodes == [] then null else nodes[0])
      && outPacketLast == (if nodes == [] then null else nodes[|nodes| - 1])
      && outPacketCount == |nodes| && outPacketBytes == TotalLength(nodes)
    }

    /** Nothing but the first packet has been begun. */
    ghost predicate Positions()
      reads this`nodes, nodes`pos, nodes`toProcess
    {
      && (forall i | 0 <= i < |nodes| :: nodes[i].pos + nodes[i].toProcess == |nodes[i].item.data|)
      && (forall i | 0 < i < |nodes| :: nodes[i].pos == 0)
    }

    /** The nodes are the packets that are still to go. */
    ghost predicate Pending()
      reads this`nodes, this`queued, this`gone
    {
      gone <= |queued| && Items(nodes) == queued[gone..]
    }

    ghost function View(): History
      reads this`nodes, this`queued, this`gone, this`callbacks, nodes`pos, sock`sent, sock`open
    {
      History(queued, gone, if nodes == [] then 0 else nodes[0].pos, sock.sent, callbacks, false, sock.open)
    }

    ghost predicate Consistent()
      reads this, nodes, sock
    {
      && Linked() && Positions() && Pending()
      && (!sock.open ==> nodes != [] && nodes[0].toProcess == 0 && IsDisconnect(nodes[0].item.command))
    }

    ghost predicate Valid()
      reads this, nodes, sock
    {
      Consistent() && InOrder(View())
    }

    constructor (sock: Socket)
      requires sock.sent == [] && sock.open
      ensures Valid() && this.sock == sock && View() == NOTHING
    {
      this.sock := sock;
      outPacket, outPacketLast, outPacketCount, outPacketBytes, callbacks := null, null, 0, 0, [];
      nodes, queued, gone := [], [], 0;
      new;
      assert queued[gone..] == [] && Items(nodes) == [];
    }

    /** packet__queue_append. */
    method LinkLast(packet: Node)
      requires Linked() && packet !in nodes
      modifies this`nodes, this`outPacket, this`outPacketLast, this`outPacketCount, this`outPacketBytes, nodes`next, packet`next
      ensures Linked() && nodes == old(nodes) + [packet]
    {
      packet.next := null;
      if outPacket != null {
        outPacketLast.next := packet;
      } else {
        outPacket := packet;
      }
      outPacketLast := packet;
      outPacketCount := outPacketCount + 1;
      outPacketBytes := outPacketBytes + packet.packetLength;
      TotalSnoc(nodes, packet);
      nodes := nodes + [packet];
    }

    method Enqueue(packet: Node)
      requires Linked() && Positions() && packet !in nodes
      modifies this`nodes, this`outPacket, this`outPacketLast, this`outPacketCount, this`outPacketBytes, nodes`next, packet
      ensures Linked() && Positions() && nodes == old(nodes) + [packet] && packet.pos == 0
    {
      packet.pos, packet.toProcess := 0, |packet.item.data|;
      LinkLast(packet);
    }

    method Register(packet: Node)
      requires Consistent() && packet !in nodes
      modifies this`nodes, this`queued, this`outPacket, this`outPacketLast, this`outPacketCount, this`outPacketBytes,
        nodes`next, packet
      ensures Consistent() && View() == Queued(old(View()), packet.item) && nodes == old(nodes) + [packet]
    {
      ItemsSnoc(nodes, packet);
      Enqueue(packet);
      TailSnoc(queued, gone, packet.item);
      queued := queued + [packet.item];
    }

    /** packet__queue, without the write that may follow. */
    method Append(packet: Node)
      requires Valid() && packet !in nodes && packet.item.data != []
      modifies this`nodes, this`queued, this`outPacket, this`outPacketLast, this`outPacketCount, this`outPacketBytes,
        nodes`next, packet
      ensures Valid() && View() == Step(old(View()), Queueing(packet.item)) && nodes == old(nodes) + [packet]
    {
      QueuedInOrder(View(), packet.item);
      Register(packet);
    }

    /** packet__get_next_out. */
    method GetNextOut() returns (packet: Node?)
      requires Linked() && Positions() && nodes != []
      modifies this`nodes, this`outPacket, this`outPacketLast, this`outPacketCount, this`outPacketBytes
      ensures Linked() && Positions() && nodes == old(nodes)[1..] && packet == outPacket
      ensures nodes != [] ==> nodes[0].pos == 0
    {
      outPacketCount := outPacketCount - 1;
      outPacketBytes := outPacketBytes - outPacket.packetLength;
      outPacket := outPacket.next;
      if outPacket == null {
        outPacketLast := null;
      }
      packet := outPacket;
      assert forall i | 0 <= i < |nodes[1..]| :: nodes[1..][i] == nodes[i + 1];
      nodes := nodes[1..];
    }

    /** The list goes on to the next packet. */
    method Advance() returns (packet: Node?)
      requires Linked() && Positions() && Pending() && nodes != []
      modifies this`nodes, this`gone, this`outPacket, this`outPacketLast, this`outPacketCount, this`outPacketBytes
      ensures Linked() && Positions() && Pending() && nodes == old(nodes)[1..] && packet == outPacket
      ensures (nodes != [] ==> nodes[0].pos == 0) && gone == old(gone) + 1
    {
      ItemsTail(nodes, queued, gone);
      packet := GetNextOut();
      gone := gone + 1;
    }

    /** The callback for a complete QoS 0 PUBLISH, and the next packet. */
    method Unlink() returns (packet: Node?)
      requires Consistent() && sock.open && nodes != [] && !IsDisconnect(nodes[0].item.command)
      modifies this`nodes, this`gone, this`callbacks,
        this`outPacket, this`outPacketLast, this`outPacketCount, this`outPacketBytes
      ensures Consistent() && View() == Unlinked(Called(old(View()))) && nodes == old(nodes)[1..] && packet == outPacket
    {
      ItemsTail(nodes, queued, gone);
      if IsQos0(outPacket.item.command) {
        callbacks := callbacks + [outPacket.item.mid];
      }
      packet := Advance();
    }

    /** The first packet is written n bytes further. */
    method Progress(packet: Node, n: nat)
      requires Linked() && Positions() && nodes != [] && packet == nodes[0] && n <= packet.toProcess
      modifies packet`pos, packet`toProcess
      ensures Linked() && Positions() && packet.pos == old(packet.pos) + n && packet.toProcess == old(packet.toProcess) - n
    {
      packet.toProcess, packet.pos := packet.toProcess - n, packet.pos + n;
    }

    /** One write of what is left of the first packet. */
    method WriteSome(packet: Node) returns (n: nat, rc: Rc)
      requires Consistent() && sock.open && nodes != [] && packet == nodes[0] && packet.toProcess > 0
      modifies packet`pos, packet`toProcess, sock`answers, sock`sent, sock`refusals
      ensures n <= old(packet.toProcess) && packet.toProcess == old(packet.toProcess) - n
      ensures sock.refusals == old(sock.refusals) + if n == 0 then 1 else 0
      ensures Consistent() && View() == Wrote(old(View()), n)
    {
      ItemsTail(nodes, queued, gone);
      n, rc := sock.Write(packet.item.data[packet.pos..]);
      SliceOfTail(packet.item.data, packet.pos, n);
      Progress(packet, n);
    }

    /** The first packet, until it is complete or the socket takes no more. */
    method WritePacket(packet: Node) returns (done: bool, rc: Rc)
      requires Valid() && nodes != [] && packet == nodes[0]
      modifies packet`pos, packet`toProcess, sock`answers, sock`sent, sock`refusals
      ensures Valid() && (done <==> packet.toProcess == 0) && old(sock.sent) <= sock.sent
      ensures sock.refusals == old(sock.refusals) + if done then 0 else 1
      ensures old(!sock.open) ==> done && sock.sent == old(sock.sent)
    {
      while packet.toProcess > 0
        invariant Valid() && old(sock.sent) <= sock.sent && sock.refusals == old(sock.refusals)
        invariant old(!sock.open) ==> sock.sent == old(sock.sent)
        decreases packet.toProcess
      {
        ghost var h := View();
        var n;
        n, rc := WriteSome(packet);
        WroteInOrder(h, n);
        if n == 0 {
          return false, rc;
        }
      }
      return true, Success;
    }

    /** A packet that is complete leaves the queue, except a DISCONNECT. */
    method Complete(packet: Node) returns (next: Node?)
      requires Valid() && nodes != [] && packet == nodes[0] && packet.toProcess == 0
      modifies this`nodes, this`gone, this`callbacks, this`outPacket, this`outPacketLast, this`outPacketCount,
        this`outPacketBytes, sock`open
      ensures Valid() && View() == Step(Step(old(View()), Calling), Unlinking)
      ensures if IsDisconnect(packet.item.command) then !sock.open && nodes == old(nodes) && next == null
              else sock.open && nodes == old(nodes)[1..] && next == outPacket
    {
      ItemsTail(nodes, queued, gone);
      CompleteInOrder(View());
      if IsDisconnect(packet.item.command) {
        sock.open := false;
        return null;
      }
      next := Unlink();
    }

    /** With no complete packet at the head but a DISCONNECT, every callback has been made. */
    lemma CallbacksAreExact()
      requires Valid() && (nodes == [] || !sock.open || nodes[0].toProcess > 0)
      ensures Whole(queued, |sock.sent|) <= |queued| && callbacks == Qos0Mids(queued[..Whole(queued, |sock.sent|)])
    {
      CallbackIsOnce(View());
      if nodes != [] {
        ItemsTail(nodes, queued, gone);
        DisconnectIsNotPublish(nodes[0].item.command);
      }
      assert callbacks + [] == callbacks;
    }

    /**
     packet__write: packets go out in order until the queue is empty, the socket takes no more, or a
     DISCONNECT is out, which stays at the head of the queue.
     */
    method Write() returns (rc: Rc)
      requires Valid()
      modifies this`nodes, this`gone, this`callbacks, this`outPacket, this`outPacketLast, this`outPacketCount,
        this`outPacketBytes, nodes`pos, nodes`toProcess, sock
      ensures Valid() && old(sock.sent) <= sock.sent
      ensures old(!sock.open) ==> sock.sent == old(sock.sent) && !sock.open
      ensures sock.refusals == old(sock.refusals) ==> rc == Success && (nodes == [] || !sock.open)
      ensures nodes == [] || !sock.open || nodes[0].toProcess > 0
      ensures Whole(queued, |sock.sent|) <= |queued| && callbacks == Qos0Mids(queued[..Whole(queued, |sock.sent|)])
    {
      rc := WriteLoop();
      CallbacksAreExact();
    }

    /** One turn of the loop: the next packet, or null if the loop ends. */
    method Turn(packet: Node) returns (next: Node?, done: bool, rc: Rc)
      requires Valid() && nodes != [] && packet == nodes[0]
      modifies this`nodes, this`gone, this`callbacks, this`outPacket, this`outPacketLast, this`outPacketCount,
        this`outPacketBytes, packet`pos, packet`toProcess, sock`answers, sock`sent, sock`refusals, sock`open
      ensures Valid() && old(sock.sent) <= sock.sent
      ensures old(!sock.open) ==> done && sock.sent == old(sock.sent) && !sock.open
      ensures sock.refusals == old(sock.refusals) + if done then 0 else 1
      ensures
        if !done then nodes == old(nodes) && nodes[0].toProcess > 0
        else if IsDisconnect(packet.item.command) then !sock.open && nodes == old(nodes) && next == null
        else nodes == old(nodes)[1..] && next == outPacket
    {
      next := null;
      done, rc := WritePacket(packet);
      ghost var sent := sock.sent;
      if done {
        next := Complete(packet);
        assert sock.sent == sent;
      }
    }

    method WriteLoop() returns (rc: Rc)
      requires Valid()
      modifies this`nodes, this`gone, this`callbacks, this`outPacket, this`outPacketLast, this`outPacketCount,
        this`outPacketBytes, nodes`pos, nodes`toProcess, sock
      ensures Valid() && old(sock.sent) <= sock.sent
      ensures old(!sock.open) ==> sock.sent == old(sock.sent) && !sock.open
      ensures sock.refusals == old(sock.refusals) ==> rc == Success && (nodes == [] || !sock.open)
      ensures nodes == [] || !sock.open || nodes[0].toProcess > 0
    {
      var packet := outPacket;
      ghost var k := 0;
      ghost var all := nodes;
      while packet != null
        invariant Valid() && old(sock.sent) <= sock.sent && sock.refusals == old(sock.refusals)
        invariant packet == outPacket || (packet == null && !sock.open)
        invariant 0 <= k <= |all| && nodes == all[k..]
        invariant old(!sock.open) ==> sock.sent == old(sock.sent) && !sock.open
        decreases packet != null, |nodes|
      {
        assert packet == all[k];
        var next, done;
        next, done, rc := Turn(packet);
        if !done {
          return rc;
        }
        packet := next;
        if next != null || sock.open {
          k := k + 1;
        }
      }
      return Success;
    }

    /** packet__cleanup_all_no_locks, for a new connection: nothing that is still queued goes out on it. */
    method CleanupAll()
      requires Valid()
      modifies this`nodes, this`queued, this`gone, this`callbacks, this`outPacket, this`outPacketLast,
        this`outPacketCount, this`outPacketBytes
      ensures Linked() && nodes == [] && queued == [] && gone == 0 && callbacks == []
    {
      while outPacket != null
        invariant outPacket == if nodes == [] then null else nodes[0]
        invariant forall i {:trigger nodes[i].next} | 0 <= i < |nodes| ::
          nodes[i].next == if i + 1 < |nodes| then nodes[i + 1] else null
        decreases |nodes|
      {
        outPacket := outPacket.next;
        nodes := nodes[1..];
      }
      outPacketCount, outPacketBytes, outPacketLast := 0, 0, null;
      queued, gone, callbacks := [], 0, [];
    }
  }
}
