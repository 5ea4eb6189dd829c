/**
 QoS 2 across reconnects: once a PUBREC was accepted for a message, only its PUBREL is sent
 again, over any number of connections; and what the retry after CONNACK sends, in order.
 */
module SessionQos2 {
  import opened Basics
  import opened Session
  import opened SessionAccounts
  import opened SessionQuota
  import opened SessionSteps
  import opened SessionBound
  import opened SessionSettled
  import opened SessionWindow
  import opened SessionLate

  // ---------------------------------------------------------------- an accepted PUBREC is final

  lemma AcceptPubrecWire(s: Session, mid: Mid, id: nat)
    ensures NotPublished(s.wire, AcceptPubrec(s, mid).wire, id)
  {
  }

  /** The PUBREC settles the message found. */
  lemma PubrecSettles(s: Session, mid: Mid, j: nat)
    requires Accounted(s) && s.state == Active && s.phase == Idle
    requires j == Find(s.out, mid) && j < |s.out| && s.out[j].qos == 2
    ensures
      var t := Step(s, PubrecOk(mid));
      && Accounted(t) && t.maximum == s.maximum
      && Settled(t, s.out[j].id) && Within(t, s.out[j].id, j + 1) && NotPublished(s.wire, t.wire, s.out[j].id)
  {
    var t := AcceptPubrec(s, mid);
    AcceptPubrecAccounts(s, mid);
    AcceptPubrecTakes(s, mid, j);
    PlaceOf(t, j);
    AcceptPubrecWire(s, mid, s.out[j].id);
  }

  /**
   For any broker: a PUBREC without error is accepted for a QoS 2 message in the window.  Whatever
   follows, over any number of losses and reconnects, no PUBLISH of that message is sent again, and
   while it is listed it only awaits PUBCOMP, as long as every CONNACK leaves it its place.
   */
  lemma PlacedPubrecIsFinal(maximum: nat, before: seq<Event>, mid: Mid, after: seq<Event>)
    requires
      var s := Run(Fresh(maximum), before);
      var j := Find(s.out, mid);
      && s.state == Active && s.phase == Idle && j < |s.out| && s.out[j].qos == 2 && j < s.maximum
      && KeepsPlaces(Step(s, PubrecOk(mid)), after, s.out[j].id)
    ensures
      var s := Run(Fresh(maximum), before);
      var t := Run(Step(s, PubrecOk(mid)), after);
      var id := s.out[Find(s.out, mid)].id;
      NotPublished(s.wire, t.wire, id) && forall i | 0 <= i < |t.out| && t.out[i].id == id :: Released(t.out[i])
  {
    var s := Run(Fresh(maximum), before);
    RunAccounts(Fresh(maximum), before);
    PubrecSettles(s, mid, Find(s.out, mid));
    RunSettled(Step(s, PubrecOk(mid)), after, s.out[Find(s.out, mid)].id);
  }

  /**
   With a conforming broker up to the PUBREC, the message has a place when the PUBREC is accepted,
   also if CONNACKs have changed the maximum.
   */
  lemma AcceptedPubrecIsFinal(maximum: nat, before: seq<Event>, mid: Mid, after: seq<Event>)
    requires ConformingChanges(Fresh(maximum), before)
    requires
      var s := Run(Fresh(maximum), before);
      && s.state == Active && s.phase == Idle && Conforming(s, PubrecOk(mid))
      && (Find(s.out, mid) < |s.out| ==> KeepsPlaces(Step(s, PubrecOk(mid)), after, s.out[Find(s.out, mid)].id))
    ensures
      var s := Run(Fresh(maximum), before);
      var j := Find(s.out, mid);
      var t := Run(Step(s, PubrecOk(mid)), after);
      && j < |s.out| && s.out[j].qos == 2 && j < s.maximum
      && NotPublished(s.wire, t.wire, s.out[j].id)
      && forall i | 0 <= i < |t.out| && t.out[i].id == s.out[j].id :: Released(t.out[i])
  {
    AnsweredWithin(maximum, before, Pubrec(mid));
    PlacedPubrecIsFinal(maximum, before, mid, after);
  }

  /** Every CONNACK has this maximum. */
  predicate SameMaximum(es: seq<Event>, maximum: nat) {
    forall n | 0 <= n < |es| && es[n].Connack? :: es[n].maximum == maximum
  }

  lemma {:induction false} SameMaximumKeeps(s: Session, es: seq<Event>, id: nat)
    requires Accounted(s) && Settled(s, id) && Within(s, id, s.maximum) && SameMaximum(es, s.maximum)
    ensures KeepsPlaces(s, es, id)
    decreases |es|
  {
    if es != [] {
      StepSettled(s, es[0], id);
      StepAccounts(s, es[0]);
      StepKeepsMaximum(s, es[0]);
      SameMaximumKeeps(Step(s, es[0]), es[1..], id);
    }
  }

  /** With a maximum that does not change after the PUBREC, nothing more is needed. */
  lemma FixedMaximumIsFinal(maximum: nat, before: seq<Event>, mid: Mid, after: seq<Event>)
    requires ConformingChanges(Fresh(maximum), before)
    requires
      var s := Run(Fresh(maximum), before);
      && s.state == Active && s.phase == Idle && Conforming(s, PubrecOk(mid))
      && SameMaximum(after, s.maximum)
    ensures
      var s := Run(Fresh(maximum), before);
      var j := Find(s.out, mid);
      var t := Run(Step(s, PubrecOk(mid)), after);
      && j < |s.out| && s.out[j].qos == 2
      && NotPublished(s.wire, t.wire, s.out[j].id)
      && forall i | 0 <= i < |t.out| && t.out[i].id == s.out[j].id :: Released(t.out[i])
  {
    var s := Run(Fresh(maximum), before);
    AnsweredWithin(maximum, before, Pubrec(mid));
    RunAccounts(Fresh(maximum), before);
    PubrecSettles(s, mid, Find(s.out, mid));
    SameMaximumKeeps(Step(s, PubrecOk(mid)), after, s.out[Find(s.out, mid)].id);
    AcceptedPubrecIsFinal(maximum, before, mid, after);
  }

  // ---------------------------------------------------------------- what retry sends

  /** The packet the retry after CONNACK sends for a message, if any. */
  function Resend(m: Message): seq<Wire> {
    match m.state
    case PublishQos1 => [WPublish(m.id, m.mid, m.qos, true)]
    case PublishQos2 => [WPublish(m.id, m.mid, m.qos, true)]
    case WaitForPubrel => [WPubrec(m.mid)]
    case ResendPubrel => [WPubrel(m.mid)]
    case WaitForPubcomp => [WPubrel(m.mid)]
    case _ => []
  }

  function Resends(out: seq<Message>): seq<Wire> {
    if out == [] then [] else Resend(out[0]) + Resends(out[1..])
  }

  /** On a connection that lasts, retry sends the resend packet of each message, in list order. */
  lemma {:induction false} RetrySendsInOrder(s: Session, i: nat)
    requires i <= |s.out| && s.state != Down && s.life >= |s.out| - i
    ensures RetryFrom(s, i).wire == s.wire + Resends(s.out[i..])
    ensures RetryFrom(s, i).state == s.state && RetryFrom(s, i).life >= s.life - (|s.out| - i)
    decreases |s.out| - i
  {
    if i < |s.out| {
      var t := Retry(s, i);
      RetrySends(s, i);
      RetrySendsInOrder(t, i + 1);
      assert s.out[i..][1..] == s.out[i + 1..];
      Regroup(s.wire, Resend(s.out[i]), Resends(s.out[i + 1..]));
    }
  }

  lemma Regroup(a: seq<Wire>, b: seq<Wire>, c: seq<Wire>)
    ensures (a + b) + c == a + (b + c)
  {
  }

  lemma RetrySends(s: Session, i: nat)
    requires i < |s.out| && CanSend(s)
    ensures
      var t := Retry(s, i);
      && t.wire == s.wire + Resend(s.out[i]) && t.out[i + 1..] == s.out[i + 1..] && |t.out| == |s.out|
      && t.state == s.state && t.life >= s.life - 1
  {
  }

  /** In particular, every listed message with an accepted PUBREC gets its PUBREL again. */
  lemma PubrelIsResent(s: Session, i: nat)
    requires s.state == Accepted && s.life >= |s.out|
    requires i < |s.out| && Released(s.out[i])
    ensures Activating(s).wire == s.wire + Resends(s.out)
    ensures WPubrel(s.out[i].mid) in Resends(s.out)
  {
    RetrySendsInOrder(s.(state := Active), 0);
    assert s.out[0..] == s.out;
    ResendsHas(s.out, i);
  }

  lemma {:induction false} ResendsHas(out: seq<Message>, i: nat)
    requires i < |out|
    ensures forall w | w in Resend(out[i]) :: w in Resends(out)
  {
    if i > 0 { ResendsHas(out[1..], i - 1); }
  }

  // ---------------------------------------------------------------- the place is needed

  /** A PUBLISH of this message is among what was added to the wire. */
  predicate Republished(before: seq<Wire>, after: seq<Wire>, id: nat) {
    exists n :: |before| <= n < |after| && after[n].WPublish? && after[n].id == id
  }

  lemma {:induction false} ReleaseGrows(s: Session, i: nat)
    requires i <= |s.out|
    ensures s.wire <= ReleaseFrom(s, i).wire
    decreases |s.out| - i
  {
    if i < |s.out| && s.quota > 0 {
      if Live(s.out[i]) { ReleaseGrows(s, i + 1); } else if CanSend(s) { ReleaseGrows(SentAt(s, i), i + 1); }
    }
  }

  /** With enough quota on a connection that lasts, the release loop comes to every waiting message. */
  lemma {:induction false} ReleaseReaches(s: Session, k: nat, i: nat)
    requires k <= i < |s.out| && !Live(s.out[i]) && s.state != Down && s.quota > i - k && s.life > i - k
    ensures Republished(s.wire, ReleaseFrom(s, k).wire, s.out[i].id)
    decreases |s.out| - k
  {
    if Live(s.out[k]) {
      ReleaseReaches(s, k + 1, i);
    } else {
      var r := SentAt(s, k);
      if k < i {
        ReleaseReaches(r, k + 1, i);
      } else {
        ReleaseGrows(r, k + 1);
        assert r.wire[|s.wire|] == PublishOf(InFlight(s.out[i]));
      }
    }
  }

  /** The next connection has room for everything. */
  function RoomyRun(n: nat, mid: Mid): seq<Event> {
    [Reconnect(2 * n + 2), Connack(2 * n + 2), Activate] + [Publish(mid, 1)]
  }

  lemma RoomyConnects(s: Session, life: nat)
    requires life == 2 * |s.out| + 2 && s.phase == Idle
    ensures
      var b := TakeConnack(Reconnecting(s, life), life);
      && b.out == Reset(s, false).out && b.quota == |s.out| + 2 && b.life == life && b.wire == s.wire
      && b.state == Accepted && b.phase == Idle && b.awaiting == {}
  {
    var a := Reconnecting(s, life);
    assert TakeConnack(a, life).out == a.out;
  }

  lemma RoomyActivates(b: Session, life: nat)
    requires b.life == life == 2 * |b.out| + 2 && b.quota == |b.out| + 2 && b.state == Accepted && b.phase == Idle
    ensures
      var c := Activating(b);
      && SameStates(b.out, c.out) && c.quota == b.quota && c.life >= |c.out| + 2 && c.state == Active && c.phase == Idle
      && b.wire <= c.wire
  {
    RetrySendsInOrder(b.(state := Active), 0);
    RetryKeeps(b.(state := Active), 0);
  }

  lemma RoomyPublishes(c: Session, mid: Mid, i: nat)
    requires c.state == Active && i < |c.out| && !Live(c.out[i]) && c.quota >= |c.out| + 2 && c.life >= |c.out| + 2
    ensures Republished(c.wire, Publishing(c, mid, 1).wire, c.out[i].id)
  {
    ReleaseReaches(Queued(c, mid, 1), 0, i);
  }

  lemma RepublishedSince(a: seq<Wire>, b: seq<Wire>, c: seq<Wire>, id: nat)
    requires a <= b && Republished(b, c, id)
    ensures Republished(a, c, id) && !NotPublished(a, c, id)
  {
    var n :| |b| <= n < |c| && c[n].WPublish? && c[n].id == id;
    assert |a| <= n;
  }

  /** The message waits once the next connection is set up, and its first publish releases it. */
  lemma RoomyRepublishes(s: Session, life: nat, i: nat, mid: Mid)
    requires life == 2 * |s.out| + 2 && s.phase == Idle && i < |s.out| && s.maximum <= i
    ensures
      var c := Activating(TakeConnack(Reconnecting(s, life), life));
      Republished(s.wire, Publishing(c, mid, 1).wire, s.out[i].id)
  {
    var b := TakeConnack(Reconnecting(s, life), life);
    RoomyConnects(s, life);
    RoomyActivates(b, life);
    var c := Activating(b);
    assert c.out[i] == b.out[i].(dup := c.out[i].dup);
    RoomyPublishes(c, mid, i);
    RepublishedSince(s.wire, c.wire, Publishing(c, mid, 1).wire, s.out[i].id);
  }

  lemma ReconnectStep(s: Session, life: nat)
    requires s.phase == Idle
    ensures Step(s, Reconnect(life)) == Reconnecting(s, life)
  {
  }

  lemma ConnackStep(s: Session, maximum: nat)
    requires s.phase == Idle
    ensures Step(s, Connack(maximum)) == TakeConnack(s, maximum)
  {
  }

  lemma ActivateStep(s: Session)
    requires s.phase == Idle
    ensures Step(s, Activate) == Activating(s)
  {
  }

  lemma PublishStep(s: Session, mid: Mid, qos: Qos)
    ensures Step(s, Publish(mid, qos)) == Publishing(s, mid, qos)
  {
  }

  lemma {:induction false} RoomyRuns(s: Session, life: nat, mid: Mid)
    requires s.phase == Idle
    ensures
      var c := Activating(TakeConnack(Reconnecting(s, life), life));
      Run(s, [Reconnect(life), Connack(life), Activate] + [Publish(mid, 1)]) == Publishing(c, mid, 1)
  {
    var a := Reconnecting(s, life);
    var b := TakeConnack(a, life);
    var c := Activating(b);
    ReconnectStep(s, life);
    ConnackStep(a, life);
    ActivateStep(b);
    PublishStep(c, mid, 1);
    RunFour(s, Reconnect(life), a, Connack(life), b, Activate, c, Publish(mid, 1), Publishing(c, mid, 1));
  }

  /** A run that publishes the message again, although its CONNACKs leave it its place. */
  ghost predicate Loses(s: Session, es: seq<Event>, id: nat) {
    Republished(s.wire, Run(s, es).wire, id) && KeepsPlaces(s, es, id)
  }

  lemma LosesBy(s: Session, es: seq<Event>, t: Session, id: nat)
    requires Run(s, es) == t && Republished(s.wire, t.wire, id) && KeepsPlaces(s, es, id)
    ensures Loses(s, es, id)
  {
  }

  lemma RoomyLoses(s: Session, life: nat, i: nat, mid: Mid, es: seq<Event>)
    requires life == 2 * |s.out| + 2 && s.phase == Idle && i < |s.out| && s.maximum <= i
    requires es == [Reconnect(life), Connack(life), Activate] + [Publish(mid, 1)] && KeepsPlaces(s, es, s.out[i].id)
    ensures Loses(s, es, s.out[i].id)
  {
    RoomyRepublishes(s, life, i, mid);
    RoomyRuns(s, life, mid);
    LosesBy(s, es, Publishing(Activating(TakeConnack(Reconnecting(s, life), life)), mid, 1), s.out[i].id);
  }

  /**
   Whatever the session: a message at or beyond the maximum in force is published again by the next
   connection with room for it, although that connection's CONNACK leaves it its place.
   */
  lemma {:induction false} LostPlaceRepublishes(s: Session, i: nat, mid: Mid)
    requires s.phase == Idle && i < |s.out| && s.maximum <= i
    ensures Loses(s, RoomyRun(|s.out|, mid), s.out[i].id)
    ensures FreshMid(s.out, mid) ==> ConformingChanges(s, RoomyRun(|s.out|, mid))
  {
    var life := 2 * |s.out| + 2;
    FourKept(s, life, mid, s.out[i].id);
    RoomyLoses(s, life, i, mid, RoomyRun(|s.out|, mid));
  }

  lemma {:induction false} FourKept(s: Session, life: nat, mid: Mid, id: nat)
    requires s.phase == Idle && life >= |s.out|
    ensures
      var es := [Reconnect(life), Connack(life), Activate] + [Publish(mid, 1)];
      KeepsPlaces(s, es, id) && (FreshMid(s.out, mid) ==> ConformingChanges(s, es))
  {
    var a := Step(s, Reconnect(life));
    var b := Step(a, Connack(life));
    var c := Step(b, Activate);
    RetryKeeps(b.(state := Active), 0);
    assert FreshMid(s.out, mid) ==> FreshMid(c.out, mid);
    var es := [Reconnect(life), Connack(life), Activate] + [Publish(mid, 1)];
    var es1, es2, es3 := es[1..], es[2..], es[3..];
    assert es1[1..] == es2 && es2[1..] == es3 && es3[1..] == [];
    assert KeepsPlaces(c, es3, id) && (FreshMid(c.out, mid) ==> ConformingChanges(c, es3));
    assert KeepsPlaces(b, es2, id) && (FreshMid(c.out, mid) ==> ConformingChanges(b, es2));
    assert KeepsPlaces(a, es1, id) && (FreshMid(c.out, mid) ==> ConformingChanges(a, es1));
  }

  /** In every continuation whose CONNACKs leave the message its place it is not published again. */
  ghost predicate StaysFinal(before: seq<Wire>, s: Session, id: nat) {
    forall es | KeepsPlaces(s, es, id) :: NotPublished(before, Run(s, es).wire, id)
  }

  lemma WithinStaysFinal(s: Session, id: nat)
    requires Accounted(s) && Settled(s, id) && Within(s, id, s.maximum)
    ensures StaysFinal(s.wire, s, id)
  {
    forall es | KeepsPlaces(s, es, id)
      ensures NotPublished(s.wire, Run(s, es).wire, id)
    {
      RunSettled(s, es, id);
    }
  }

  /**
   The condition on the position is exact: a message with an accepted PUBREC is not published again in
   any continuation that leaves it its place, if and only if it has one now.
   */
  lemma PlaceIsExact(s: Session, i: nat)
    requires Accounted(s) && s.phase == Idle && i < |s.out| && Released(s.out[i])
    ensures i < s.maximum <==> StaysFinal(s.wire, s, s.out[i].id)
  {
    PlaceOf(s, i);
    if i < s.maximum {
      WithinStaysFinal(s, s.out[i].id);
    } else {
      LostPlaceRepublishes(s, i, 1);
      RepublishedSince(s.wire, s.wire, Run(s, RoomyRun(|s.out|, 1)).wire, s.out[i].id);
    }
  }

  /** A late PUBREC settles a message without a place, which is then published again. */
  lemma LatePubrecIsNotFinal(s: Session, maximum: nat, mid: Mid, i: nat, next: Mid)
    requires Late(s, maximum, Pubrec(mid), i)
    ensures
      var t := AcceptPubrec(Activating(TakeConnack(s, maximum)), mid);
      && i < |t.out| && t.out[i].id == s.out[i].id && Released(t.out[i])
      && Loses(t, RoomyRun(|t.out|, next), s.out[i].id)
  {
    var b := TakeConnack(s, maximum);
    var c := Activating(b);
    LateIsEstablished(s, maximum, Pubrec(mid), i);
    RetryKeeps(b.(state := Active), 0);
    assert c.out[i] == b.out[i].(dup := c.out[i].dup);
    FindAt(c.out, mid, i);
    AcceptPubrecTakes(c, mid, i);
    LostPlaceRepublishes(AcceptPubrec(c, mid), i, next);
  }

  // ---------------------------------------------------------------- a changed maximum

  lemma ConnackKeepsReleased(s: Session, maximum: nat, i: nat)
    requires s.state == Connecting && i < |s.out| && Released(s.out[i])
    ensures Released(TakeConnack(s, maximum).out[i]) <==> i < maximum
  {
  }

  /**
   And on a CONNACK that changes the maximum: it is not published again in any continuation that
   leaves it its place, if and only if its position is below the new maximum.
   */
  lemma ConnackIsExact(s: Session, maximum: nat, i: nat)
    requires Accounted(s) && s.state == Connecting && s.phase == Idle && i < |s.out| && Released(s.out[i])
    ensures i < maximum <==> StaysFinal(s.wire, TakeConnack(s, maximum), s.out[i].id)
  {
    var t := TakeConnack(s, maximum);
    ConnackAccounts(s, maximum);
    ConnackKeepsReleased(s, maximum, i);
    PlaceOf(t, i);
    if i < maximum {
      WithinStaysFinal(t, s.out[i].id);
    } else {
      LostPlaceRepublishes(t, i, 1);
      RepublishedSince(s.wire, t.wire, Run(t, RoomyRun(|t.out|, 1)).wire, s.out[i].id);
    }
  }

  /** Two QoS 2 messages are sent with maximum 2, and the PUBREC of the second is accepted. */
  function FirstSession(): seq<Event> {
    [Reconnect(9), Connack(2), Activate] + [Publish(1, 2), Publish(2, 2), PubrecOk(2)]
  }

  /** The next connection has maximum 1; the broker then fails the first message. */
  function SecondSession(): seq<Event> {
    [Reconnect(9), Connack(1), Activate, PubrecFail(1), PubrecFailRelease]
  }

  function AfterFirst(): Session {
    Session([Message(0, 1, 2, WaitForPubrec, false), Message(1, 2, 2, WaitForPubcomp, false)],
            0, 2, 2, Active, Idle, 6,
            [WPublish(0, 1, 2, false), WPublish(1, 2, 2, false), WPubrel(2)],
            {Pubrec(1), Pubcomp(2)}, false, 2, [])
  }

  /** After the first connection is set up. */
  function Connected(): Session { Session([], 2, 2, 0, Active, Idle, 9, [], {}, false, 0, []) }

  lemma ConnectRuns()
    ensures Run(Fresh(2), [Reconnect(9), Connack(2), Activate]) == Connected()
  {
    var s1 := Connected().(state := Connecting);
    assert Step(Fresh(2), Reconnect(9)) == s1;
    var s2 := Connected().(state := Accepted);
    assert Step(s1, Connack(2)) == s2;
    assert Step(s2, Activate) == Connected();
    RunThree(Fresh(2), Reconnect(9), Connack(2), Activate);
  }

  function AfterOne(): Session {
    Session([Message(0, 1, 2, WaitForPubrec, false)], 1, 2, 1, Active, Idle, 8, [WPublish(0, 1, 2, false)],
            {Pubrec(1)}, false, 1, [])
  }

  function AfterTwo(): Session {
    Session([Message(0, 1, 2, WaitForPubrec, false), Message(1, 2, 2, WaitForPubrec, false)],
            0, 2, 2, Active, Idle, 7, [WPublish(0, 1, 2, false), WPublish(1, 2, 2, false)],
            {Pubrec(1), Pubrec(2)}, false, 2, [])
  }

  lemma FirstPublish()
    ensures Step(Connected(), Publish(1, 2)) == AfterOne()
  {
    var q := Queued(Connected(), 1, 2);
    assert q.out == [Message(0, 1, 2, Invalid, false)];
    assert Release(q) == AfterOne();
  }

  lemma SecondPublish()
    ensures Step(AfterOne(), Publish(2, 2)) == AfterTwo()
  {
    var q := Queued(AfterOne(), 2, 2);
    assert q.out == [AfterOne().out[0], Message(1, 2, 2, Invalid, false)];
    assert Release(q) == ReleaseFrom(q, 1) == AfterTwo();
  }

  lemma SecondPubrec()
    ensures Step(AfterTwo(), PubrecOk(2)) == AfterFirst()
  {
    assert Find(AfterTwo().out, 2) == 1;
  }

  lemma TwoPublishesRun()
    ensures Run(Connected(), [Publish(1, 2), Publish(2, 2), PubrecOk(2)]) == AfterFirst()
  {
    FirstPublish();
    SecondPublish();
    SecondPubrec();
    RunThree(Connected(), Publish(1, 2), Publish(2, 2), PubrecOk(2));
  }

  lemma RunBoth(s: Session, a: seq<Event>, t: Session, b: seq<Event>, u: Session)
    requires Run(s, a) == t && Run(t, b) == u
    ensures Run(s, a + b) == u
  {
    RunConcat(s, a, b);
  }

  lemma FirstSessionRuns()
    ensures Run(Fresh(2), FirstSession()) == AfterFirst()
  {
    var a, b := [Reconnect(9), Connack(2), Activate], [Publish(1, 2), Publish(2, 2), PubrecOk(2)];
    ConnectRuns();
    TwoPublishesRun();
    RunBoth(Fresh(2), a, Connected(), b, AfterFirst());
  }

  function AfterRetry(): Session {
    Session([Message(0, 1, 2, PublishQos2, true), Message(1, 2, 2, Invalid, false)],
            0, 1, 2, Active, Idle, 8, AfterFirst().wire + [WPublish(0, 1, 2, true)],
            {Pubrec(1)}, false, 2, [])
  }

  lemma SecondConnackRuns()
    ensures Run(AfterFirst(), [Reconnect(9), Connack(1), Activate]) == AfterRetry()
  {
    var s0 := AfterFirst();
    var m0 := Message(0, 1, 2, PublishQos2, false);
    var m1 := Message(1, 2, 2, ResendPubrel, false);
    var s1 := s0.(out := [m0, m1], state := Connecting, life := 9, awaiting := {});
    assert Reconnecting(s0, 9) == s1;
    var s2 := s1.(out := [m0, m1.(state := Invalid)], maximum := 1, state := Accepted);
    assert TakeConnack(s1, 1) == s2;
    assert Activating(s2) == AfterRetry() by {
      var r := Retry(s2.(state := Active), 0);
      assert r.out == AfterRetry().out;
      assert r == AfterRetry();
      assert RetryFrom(r, 1) == RetryFrom(r, 2) == r;
    }
    RunThree(s0, Reconnect(9), Connack(1), Activate);
  }

  lemma FailThenPublish()
    ensures
      var t := Step(Step(AfterRetry(), PubrecFail(1)), PubrecFailRelease);
      t.wire == AfterRetry().wire + [WPublish(1, 2, 2, false)]
  {
    var s3 := AfterRetry();
    var m1 := Message(1, 2, 2, Invalid, false);
    var s4 := s3.(out := [m1], queueLen := 1, phase := FailRemoved, awaiting := {}, callbacks := [0]);
    assert Step(s3, PubrecFail(1)) == s4;
  }

  lemma SecondSessionRuns(s: Session, r: Session)
    requires Run(s, [Reconnect(9), Connack(1), Activate]) == r
    ensures Run(s, SecondSession()) == Step(Step(r, PubrecFail(1)), PubrecFailRelease)
  {
    var es := [Reconnect(9), Connack(1), Activate];
    RunAppend(s, es, PubrecFail(1));
    RunAppend(s, es + [PubrecFail(1)], PubrecFailRelease);
    assert SecondSession() == es + [PubrecFail(1)] + [PubrecFailRelease];
  }

  lemma PublishedIn(before: seq<Wire>, after: seq<Wire>, w: Wire, id: nat)
    requires w.WPublish? && w.id == id && |before| < |after| && after[|after| - 1] == w
    ensures !NotPublished(before, after, id)
  {
  }

  /** A run in which the lowered maximum makes a released message be published again. */
  lemma LoweredMaximumRepublishes()
    ensures
      var s := Run(Fresh(2), FirstSession());
      var t := Run(Fresh(2), FirstSession() + SecondSession());
      |s.out| == 2 && Released(s.out[1]) && !NotPublished(s.wire, t.wire, s.out[1].id)
  {
    FirstSessionRuns();
    SecondConnackRuns();
    FailThenPublish();
    var s := AfterFirst();
    SecondSessionRuns(s, AfterRetry());
    RunConcat(Fresh(2), FirstSession(), SecondSession());
    PublishedIn(s.wire, Run(s, SecondSession()).wire, WPublish(1, 2, 2, false), 1);
  }
}
