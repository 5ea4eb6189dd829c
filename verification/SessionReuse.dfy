/**
 A packet id that is already in use: which reuse does harm to the flow control, and how.
 */
module SessionReuse {
  import opened Basics
  import opened Session
  import opened SessionQuota
  import opened SessionBound
  import opened SessionLedger
  import opened SessionLate

  /** An established session with quota for one more message, and nothing waiting. */
  predicate Ready(s: Session) {
    && s.state == Active && s.phase == Idle && s.life > 0 && s.quota > 0 && s.quota + |s.out| == s.maximum
    && forall i | 0 <= i < |s.out| :: Live(s.out[i])
  }

  /** The complete handling of an acknowledgement of a new message. */
  function Handlings(mid: Mid, qos: Qos): set<seq<Event>> {
    if qos == 1 then {[AckCount(mid, 1)] + ([AckRemove] + ([AckRelease] + []))}
    else {[PubrecOk(mid)] + [], [PubrecFail(mid)] + ([PubrecFailRelease] + [])}
  }

  /** The new message was sent and is live. */
  predicate Sent(s: Session, p: Session, m: Message) {
    && p.out == s.out + [m] && Live(m) && p.quota == s.quota - 1 && p.maximum == s.maximum
    && p.state == Active && p.phase == Idle && p.awaiting == s.awaiting + AckOf(PublishOf(m))
  }

  lemma {:induction false} ReleaseAllLive(s: Session, i: nat)
    requires i <= |s.out| && LiveFrom(s.out, i)
    ensures ReleaseFrom(s, i) == s
    decreases |s.out| - i
  {
    if i < |s.out| && s.quota > 0 { ReleaseAllLive(s, i + 1); }
  }

  lemma {:induction false} ReleaseOne(s: Session, i: nat)
    requires i < |s.out| && s.quota > 0 && CanSend(s) && !Live(s.out[|s.out| - 1])
    requires forall l | i <= l < |s.out| - 1 :: Live(s.out[l])
    ensures ReleaseFrom(s, i) == SentAt(s, |s.out| - 1)
    decreases |s.out| - i
  {
    if i < |s.out| - 1 { ReleaseOne(s, i + 1); }
  }

  lemma ReadySends(s: Session, mid: Mid, qos: Qos)
    requires Ready(s)
    ensures Sent(s, Publishing(s, mid, qos), InFlight(Message(s.accepted, mid, qos, Invalid, false)))
  {
    var q := Queued(s, mid, qos);
    ReleaseOne(q, 0);
  }

  lemma {:induction false} FindFirst(out: seq<Message>, m: Message, mid: Mid)
    requires Find(out, mid) < |out|
    ensures Find(out + [m], mid) == Find(out, mid)
  {
    var j := Find(out, mid);
    assert (out + [m])[j] == out[j];
    assert forall i | 0 <= i < j :: (out + [m])[i] == out[i];
  }

  /** In the books: everything is live, and quota plus messages is the maximum. */
  predicate Even(s: Session) { LiveFrom(s.out, 0) && s.quota + |s.out| == s.maximum }

  lemma EvenBounded(s: Session)
    requires Even(s)
    ensures Bounded(s)
  {
    CountBelow(s.out, |s.out|);
  }

  /** PUBACK: the old QoS 1 message is taken off, or the QoS 2 message found ends the connection. */
  lemma PubackTaken(p: Session, mid: Mid, j: nat)
    requires Even(p) && p.state == Active && p.phase == Idle && j == Find(p.out, mid) && j < |p.out|
    ensures
      var c := CountAck(p, mid, 1);
      && c.phase == Counted(mid, 1) && c.quota == p.quota + 1 && c.out == p.out && c.maximum == p.maximum
      && var r := RemoveAcked(c);
      if p.out[j].qos == 1 then r.phase == Removed && Even(r) else r.phase == Idle && r.state == Down
  {
  }

  lemma {:induction false} PubackSteps(p: Session, mid: Mid, c: Session, r: Session)
    requires p.phase == Idle && c == CountAck(p, mid, 1) && c.phase.Counted? && r == RemoveAcked(c)
    ensures Run(p, [AckCount(mid, 1)] + ([AckRemove] + ([AckRelease] + []))) == Step(r, AckRelease)
  {
    First(p, AckCount(mid, 1), [AckRemove] + ([AckRelease] + []));
    First(c, AckRemove, [AckRelease] + []);
    First(r, AckRelease, []);
  }

  lemma {:induction false} PubackHandled(p: Session, mid: Mid, j: nat)
    requires Even(p) && p.state == Active && p.phase == Idle && j == Find(p.out, mid) && j < |p.out|
    ensures Bounded(Run(p, [AckCount(mid, 1)] + ([AckRemove] + ([AckRelease] + []))))
  {
    var c := CountAck(p, mid, 1);
    var r := RemoveAcked(c);
    PubackTaken(p, mid, j);
    PubackSteps(p, mid, c, r);
    if p.out[j].qos == 1 {
      ReleaseAllLive(r.(phase := Idle), 0);
      EvenBounded(r.(phase := Idle));
    }
  }

  lemma PubrecEven(p: Session, mid: Mid, j: nat)
    requires Even(p) && p.state == Active && p.phase == Idle && j == Find(p.out, mid) && j < |p.out|
    ensures Even(AcceptPubrec(p, mid))
  {
  }

  lemma {:induction false} PubrecHandled(p: Session, mid: Mid, j: nat)
    requires Even(p) && p.state == Active && p.phase == Idle && j == Find(p.out, mid) && j < |p.out|
    ensures Bounded(Run(p, [PubrecOk(mid)] + []))
  {
    First(p, PubrecOk(mid), []);
    PubrecEven(p, mid, j);
    EvenBounded(AcceptPubrec(p, mid));
  }

  /** PUBREC with an error: the quota comes back whether or not a message was taken off. */
  lemma FailureTaken(p: Session, mid: Mid, j: nat)
    requires Even(p) && p.state == Active && p.phase == Idle && j == Find(p.out, mid) && j < |p.out|
    ensures
      var r := RaiseQuota(FailPubrec(p, mid)).(phase := Idle);
      && LiveFrom(r.out, 0) && r.state == Active && r.maximum == p.maximum
      && r.quota + |r.out| == r.maximum + if p.out[j].qos == 1 then 1 else 0
  {
  }

  lemma {:induction false} FailureHandled(p: Session, mid: Mid, j: nat)
    requires Even(p) && p.state == Active && p.phase == Idle && j == Find(p.out, mid) && j < |p.out|
    ensures
      var t := Run(p, [PubrecFail(mid)] + ([PubrecFailRelease] + []));
      && t.state == Active && t.phase == Idle && t.maximum == p.maximum
      && t.quota + LiveCount(t.out) == t.maximum + if p.out[j].qos == 1 then 1 else 0
  {
    var f := FailPubrec(p, mid);
    var r := RaiseQuota(f).(phase := Idle);
    FailureTaken(p, mid, j);
    ReleaseAllLive(r, 0);
    CountAll(r.out);
    FailureRuns(p, mid, f, r);
  }

  lemma {:induction false} FailureRuns(p: Session, mid: Mid, f: Session, r: Session)
    requires p.phase == Idle && f == FailPubrec(p, mid) && f.phase == FailRemoved && r == Release(RaiseQuota(f).(phase := Idle))
    ensures Run(p, [PubrecFail(mid)] + ([PubrecFailRelease] + [])) == r
  {
    First(p, PubrecFail(mid), [PubrecFailRelease] + []);
    First(f, PubrecFailRelease, []);
  }

  /**
   A packet id in use, over a message in flight: handling some acknowledgement of the new message
   takes quota plus live messages above the maximum if and only if the new message has QoS 2 and
   the first one listed under that id has QoS 1.
   */
  lemma ReuseHarmsExactly(s: Session, mid: Mid, qos: Qos, j: nat)
    requires Ready(s) && j == Find(s.out, mid) && j < |s.out|
    ensures (exists es | es in Handlings(mid, qos) :: !Bounded(Run(Publishing(s, mid, qos), es)))
       <==> s.out[j].qos == 1 && qos == 2
  {
    var p := Publishing(s, mid, qos);
    ReadySends(s, mid, qos);
    FindFirst(s.out, p.out[|s.out|], mid);
    assert p.out[j] == s.out[j] && Even(p);
    if qos == 1 {
      PubackHandled(p, mid, j);
    } else {
      PubrecHandled(p, mid, j);
      FailureHandled(p, mid, j);
      assert ([PubrecFail(mid)] + ([PubrecFailRelease] + [])) in Handlings(mid, qos);
    }
  }

  /** And then it is one above the maximum, with a broker that conforms. */
  lemma {:induction false} ReusedIdExceeds(s: Session, mid: Mid, j: nat)
    requires Ready(s) && j == Find(s.out, mid) && j < |s.out| && s.out[j].qos == 1
    ensures Exceeds(Publishing(s, mid, 2), [PubrecFail(mid)] + ([PubrecFailRelease] + []))
  {
    var p := Publishing(s, mid, 2);
    ReadySends(s, mid, 2);
    FindFirst(s.out, p.out[|s.out|], mid);
    assert p.out[j] == s.out[j] && Even(p);
    FailureHandled(p, mid, j);
    FailureConforms(p, mid);
  }

  lemma {:induction false} FailureConforms(p: Session, mid: Mid)
    requires Pubrec(mid) in p.awaiting
    ensures ConformingCounts(p, [PubrecFail(mid)] + ([PubrecFailRelease] + []))
  {
    First(p, PubrecFail(mid), [PubrecFailRelease] + []);
    First(Step(p, PubrecFail(mid)), PubrecFailRelease, []);
  }

  // ---------------------------------------------------------------- it happens

  function OneInFlight(): Session {
    Session([Message(0, 5, 1, WaitForPuback, false)], 8, 9, 1, Active, Idle, 8, [WPublish(0, 5, 1, false)],
            {Puback(5)}, false, 1, [])
  }

  lemma OneInFlightRuns()
    ensures Run(Fresh(9), [Reconnect(9), Connack(9), Activate] + [Publish(5, 1)]) == OneInFlight()
  {
    var s3 := Session([], 9, 9, 0, Active, Idle, 9, [], {}, false, 0, []);
    var s1, s2 := s3.(state := Connecting), s3.(state := Accepted);
    assert Step(Fresh(9), Reconnect(9)) == s1;
    assert Step(s1, Connack(9)) == s2;
    assert Step(s2, Activate) == s3;
    assert Step(s3, Publish(5, 1)) == OneInFlight() by {
      assert Queued(s3, 5, 1).out == [Message(0, 5, 1, Invalid, false)];
    }
    RunFour(Fresh(9), Reconnect(9), s1, Connack(9), s2, Activate, s3, Publish(5, 1), OneInFlight());
  }

  /** A run from a new client: QoS 2 is published under the id of a QoS 1 message, and the broker fails it. */
  lemma {:induction false} ReusedIdBreaksBound()
    ensures
      var s := Run(Fresh(9), [Reconnect(9), Connack(9), Activate] + [Publish(5, 1)]);
      Exceeds(Publishing(s, 5, 2), [PubrecFail(5)] + ([PubrecFailRelease] + []))
  {
    OneInFlightRuns();
    ReusedIdExceeds(OneInFlight(), 5, 0);
  }
}
