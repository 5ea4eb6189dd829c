/**
 The sending half of a client session: the ordered list of outgoing QoS 1 and QoS 2
 messages, the send quota, and one step function per locked section of the library.

 A run is any interleaving of these steps.  The handlers that release their lock half way
 (PUBACK/PUBCOMP, a failing PUBREC, CONNACK) are several steps, so an application thread, or
 the application's own callback, may publish in between.
 */
module Session {
  import opened Basics

  datatype MsgState =
    | Invalid          // not sent: waiting for quota
    | PublishQos1      // to be sent again after CONNACK
    | WaitForPuback
    | PublishQos2      // to be sent again after CONNACK
    | WaitForPubrec
    | ResendPubrel     // its PUBREL is to be sent again after CONNACK
    | WaitForPubrel
    | WaitForPubcomp

  /** `id` numbers the accepted publishes; it stands for the identity of the C struct. */
  datatype Message = Message(id: nat, mid: Mid, qos: Qos, state: MsgState, dup: bool)

  datatype ClientState =
    | Down        // no socket, or a send failed: no send succeeds until the next reconnect
    | Connecting  // CONNECT sent
    | Accepted    // CONNACK taken in, on_connect running
    | Active

  /** Where the network thread stands inside an acknowledgement handler. */
  datatype AckPhase =
    | Idle
    | Counted(mid: Mid, qos: Qos)  // PUBACK/PUBCOMP: quota raised, message still listed
    | Removed                      // PUBACK/PUBCOMP: message removed, on_publish running
    | FailRemoved                  // PUBREC with an error: message removed, on_publish running

  /** An acknowledgement the broker may send. */
  datatype Ack = Puback(mid: Mid) | Pubrec(mid: Mid) | Pubcomp(mid: Mid)

  /** A packet handed to the network. */
  datatype Wire =
    | WPublish(id: nat, mid: Mid, qos: Qos, dup: bool)
    | WPubrec(mid: Mid)
    | WPubrel(mid: Mid)

  /**
   The state of a session.  `life` is the number of sends the present connection will still
   take; `wire` is everything ever handed to the network; `awaiting` holds the acknowledgements
   of what was sent on the present connection and not yet acknowledged, and `twice` records
   whether something was ever sent while its acknowledgement was already outstanding;
   `accepted` and `callbacks` count the publishes accepted and list those reported by on_publish.
   */
  datatype Session = Session(
    out: seq<Message>,
    quota: nat,
    maximum: nat,
    queueLen: int,
    state: ClientState,
    phase: AckPhase,
    life: nat,
    wire: seq<Wire>,
    awaiting: set<Ack>,
    twice: bool,
    accepted: nat,
    callbacks: seq<nat>)

  /** A freshly created client. */
  function Fresh(maximum: nat): Session {
    Session([], maximum, maximum, 0, Down, Idle, 0, [], {}, false, 0, [])
  }

  // ---------------------------------------------------------------- sending

  function AckOf(w: Wire): set<Ack> {
    match w
    case WPublish(_, mid, qos, _) => if qos == 1 then {Puback(mid)} else {Pubrec(mid)}
    case WPubrec(_) => {}
    case WPubrel(mid) => {Pubcomp(mid)}
  }

  predicate CanSend(s: Session) { s.state != Down && s.life > 0 }

  function Send(s: Session, w: Wire): Session {
    if CanSend(s) then
      s.(life := s.life - 1, wire := s.wire + [w], awaiting := s.awaiting + AckOf(w),
         twice := s.twice || AckOf(w) * s.awaiting != {})
    else
      s.(state := Down)
  }

  function PublishOf(m: Message): Wire { WPublish(m.id, m.mid, m.qos, m.dup) }

  // ---------------------------------------------------------------- release and queue

  function InFlight(m: Message): Message {
    m.(state := if m.qos == 1 then WaitForPuback else WaitForPubrec)
  }

  /** message__release_to_inflight from list position i on. */
  function ReleaseFrom(s: Session, i: nat): Session
    requires i <= |s.out|
    decreases |s.out| - i
  {
    if i == |s.out| || s.quota == 0 then s
    else if s.out[i].state != Invalid then ReleaseFrom(s, i + 1)
    else
      var m := InFlight(s.out[i]);
      var s1 := s.(out := s.out[i := m]);
      if CanSend(s1) then ReleaseFrom(Send(s1, PublishOf(m)).(quota := s.quota - 1), i + 1)
      else Send(s1, PublishOf(m))
  }

  function Release(s: Session): Session { ReleaseFrom(s, 0) }

  function Queued(s: Session, mid: Mid, qos: Qos): Session {
    s.(out := s.out + [Message(s.accepted, mid, qos, Invalid, false)],
       queueLen := s.queueLen + 1,
       accepted := s.accepted + 1)
  }

  // ---------------------------------------------------------------- reset and retry

  function ResetMessage(m: Message, within: bool, quotaOnly: bool): Message {
    if !within then m.(state := Invalid)
    else if quotaOnly then m
    else if m.qos == 1 then m.(state := PublishQos1)
    else if m.state == WaitForPubrec then m.(state := PublishQos2)
    else if m.state == WaitForPubcomp then m.(state := ResendPubrel)
    else m
  }

  /** message__reconnect_reset, outgoing half. */
  function Reset(s: Session, quotaOnly: bool): Session {
    s.(out := seq(|s.out|, i requires 0 <= i < |s.out| => ResetMessage(s.out[i], i < s.maximum, quotaOnly)),
       quota := s.maximum - Min(|s.out|, s.maximum),
       queueLen := |s.out|)
  }

  /** The packet to be sent again for a message in this state. */
  function RetryPacket(m: Message): Option<Wire> {
    match m.state
    case PublishQos1 => Some(PublishOf(m))
    case PublishQos2 => Some(PublishOf(m))
    case WaitForPubrel => Some(WPubrec(m.mid))
    case ResendPubrel => Some(WPubrel(m.mid))
    case WaitForPubcomp => Some(WPubrel(m.mid))
    case _ => None
  }

  function Retry(s: Session, i: nat): Session
    requires i < |s.out|
  {
    var m := s.out[i].(dup := true);
    match RetryPacket(m)
    case Some(w) => Send(s.(out := s.out[i := m]), w)
    case None => s
  }

  /** message__retry_check from list position i on. */
  function RetryFrom(s: Session, i: nat): Session
    requires i <= |s.out|
    decreases |s.out| - i
  {
    if i == |s.out| then s else RetryFrom(Retry(s, i), i + 1)
  }

  // ---------------------------------------------------------------- lookup by packet id

  /** Position of the first message with this packet id, or the length of the list. */
  function Find(out: seq<Message>, mid: Mid): (j: nat)
    ensures j <= |out|
    ensures j < |out| ==> out[j].mid == mid
    ensures forall i | 0 <= i < j :: out[i].mid != mid
  {
    if out == [] then 0
    else if out[0].mid == mid then 0
    else 1 + Find(out[1..], mid)
  }

  function Drop(s: Session, j: nat): Session
    requires j < |s.out|
  {
    s.(out := Without(s.out, j),
       queueLen := s.queueLen - 1,
       callbacks := s.callbacks + [s.out[j].id])
  }

  function RaiseQuota(s: Session): Session {
    if s.quota < s.maximum then s.(quota := s.quota + 1) else s
  }

  // ---------------------------------------------------------------- steps

  datatype Event =
    | Publish(mid: Mid, qos: Qos)     // the application publishes
    | Lose                            // the connection is lost
    | Reconnect(life: nat)            // a new connection that will take `life` sends
    | Connack(maximum: nat)           // CONNACK up to the on_connect callback
    | Activate                        // CONNACK with reason code 0, after the callback
    | AckCount(mid: Mid, qos: Qos)    // PUBACK (qos 1) or PUBCOMP (qos 2), first section
    | AckRemove                       // second section
    | AckRelease                      // third section
    | AckMalformed                    // PUBACK or PUBCOMP found bad after the first section
    | PubrecOk(mid: Mid)              // PUBREC with a reason code below 0x80
    | PubrecFail(mid: Mid)            // PUBREC with an error, up to the callback
    | PubrecFailRelease               // and after it

  function Publishing(s: Session, mid: Mid, qos: Qos): Session { Release(Queued(s, mid, qos)) }

  function Reconnecting(s: Session, life: nat): Session {
    Reset(s, false).(state := Connecting, life := life, awaiting := {})
  }

  function TakeConnack(s: Session, maximum: nat): Session {
    if s.state == Connecting then
      Reset(s.(maximum := maximum, quota := maximum), true).(state := Accepted)
    else s.(state := Down)
  }

  /** The retry, also if the connection was lost during the callback. */
  function Activating(s: Session): Session {
    if s.state == Accepted then RetryFrom(s.(state := Active), 0)
    else if s.state == Down then RetryFrom(s, 0)
    else s
  }

  function AckFor(mid: Mid, qos: Qos): Ack { if qos == 1 then Puback(mid) else Pubcomp(mid) }

  function CountAck(s: Session, mid: Mid, qos: Qos): Session {
    if s.state == Active then
      RaiseQuota(s).(phase := Counted(mid, qos), awaiting := s.awaiting - {AckFor(mid, qos)})
    else s.(state := Down)
  }

  function RemoveAcked(s: Session): Session
    requires s.phase.Counted?
  {
    var j := Find(s.out, s.phase.mid);
    if j == |s.out| then s.(phase := Removed)
    else if s.out[j].qos != s.phase.qos then s.(phase := Idle, state := Down)
    else Drop(s, j).(phase := Removed)
  }

  function AcceptPubrec(s: Session, mid: Mid): Session {
    if s.state == Active then
      var s1 := s.(awaiting := s.awaiting - {Pubrec(mid)});
      var j := Find(s.out, mid);
      if j == |s.out| then Send(s1, WPubrel(mid))
      else if s.out[j].qos != 2 then s1.(state := Down)
      else Send(s1.(out := s.out[j := s.out[j].(state := WaitForPubcomp)]), WPubrel(mid))
    else s.(state := Down)
  }

  function FailPubrec(s: Session, mid: Mid): Session {
    if s.state == Active then
      var s1 := s.(awaiting := s.awaiting - {Pubrec(mid)}, phase := FailRemoved);
      var j := Find(s.out, mid);
      if j < |s.out| && s.out[j].qos == 2 then Drop(s1, j) else s1
    else s.(state := Down)
  }

  /** Steps of the network thread happen in the order of its code; others do nothing. */
  predicate Enabled(s: Session, e: Event) {
    match e
    case Publish(_, _) => true
    case Lose => true
    case AckRemove => s.phase.Counted?
    case AckRelease => s.phase == Removed
    case PubrecFailRelease => s.phase == FailRemoved
    case _ => s.phase == Idle
  }

  function Step(s: Session, e: Event): Session {
    if !Enabled(s, e) then s
    else
      match e
      case Publish(mid, qos) => Publishing(s, mid, qos)
      case Lose => s.(state := Down)
      case Reconnect(life) => Reconnecting(s, life)
      case Connack(maximum) => TakeConnack(s, maximum)
      case Activate => Activating(s)
      case AckCount(mid, qos) => CountAck(s, mid, qos)
      case AckRemove => RemoveAcked(s)
      case AckRelease => Release(s.(phase := Idle))
      case AckMalformed => (if s.state == Active then RaiseQuota(s) else s).(state := Down)
      case PubrecOk(mid) => AcceptPubrec(s, mid)
      case PubrecFail(mid) => FailPubrec(s, mid)
      case PubrecFailRelease => Release(RaiseQuota(s).(phase := Idle))
  }

  function Run(s: Session, es: seq<Event>): Session
    decreases |es|
  {
    if es == [] then s else Run(Step(s, es[0]), es[1..])
  }

  /** Run [e, ...] takes the step e first. */
  lemma RunStep(s: Session, e: Event, es: seq<Event>)
    ensures Run(s, [e] + es) == Run(Step(s, e), es)
  {
    assert ([e] + es)[1..] == es;
  }

  lemma RunThree(s: Session, a: Event, b: Event, c: Event)
    ensures Run(s, [a, b, c]) == Step(Step(Step(s, a), b), c)
  {
    RunStep(s, a, [b, c]);
    RunStep(Step(s, a), b, [c]);
    RunStep(Step(Step(s, a), b), c, []);
    assert [a, b, c] == [a] + [b, c] && [b, c] == [b] + [c] && [c] == [c] + [];
  }

  lemma RunFour(s: Session, a: Event, s1: Session, b: Event, s2: Session, c: Event, s3: Session, d: Event, s4: Session)
    requires Step(s, a) == s1 && Step(s1, b) == s2 && Step(s2, c) == s3 && Step(s3, d) == s4
    ensures Run(s, [a, b, c] + [d]) == s4
  {
    RunThree(s, a, b, c);
    RunAppend(s, [a, b, c], d);
  }

  lemma {:induction false} RunConcat(s: Session, a: seq<Event>, b: seq<Event>)
    ensures Run(s, a + b) == Run(Run(s, a), b)
    decreases |a|
  {
    if a == [] {
      assert a + b == b;
    } else {
      RunConcat(Step(s, a[0]), a[1..], b);
      assert (a + b)[1..] == a[1..] + b;
    }
  }

  lemma {:induction false} RunAppend(s: Session, es: seq<Event>, e: Event)
    ensures Run(s, es + [e]) == Step(Run(s, es), e)
    decreases |es|
  {
    if es == [] {
      RunStep(s, e, []);
      assert es + [e] == [e] + [];
    } else {
      RunAppend(Step(s, es[0]), es[1..], e);
      RunStep(s, es[0], es[1..] + [e]);
      assert es + [e] == [es[0]] + (es[1..] + [e]);
    }
  }
}
