/**
 A QoS 2 message whose PUBREC was accepted, step by step: as long as it has a place in the window,
 only its PUBREL is sent again, whatever the broker and the application do.
 */
module SessionSettled {
  import opened Basics
  import opened Session
  import opened SessionAccounts
  import opened SessionQuota

  /** If the message is still listed, its PUBREC has been accepted. */
  predicate Settled(s: Session, id: nat) {
    && id < s.accepted
    && forall i | 0 <= i < |s.out| && s.out[i].id == id :: Released(s.out[i])
  }

  /** If it is still listed, its position is below this maximum. */
  predicate Within(s: Session, id: nat, maximum: nat) {
    forall i | 0 <= i < |s.out| && s.out[i].id == id :: i < maximum
  }

  /** The wire grew, and not by a PUBLISH of this message. */
  predicate NotPublished(before: seq<Wire>, after: seq<Wire>, id: nat) {
    && before <= after
    && forall n | |before| <= n < |after| && after[n].WPublish? :: after[n].id != id
  }

  lemma {:induction false} ReleaseSettled(s: Session, i: nat, id: nat)
    requires i <= |s.out| && Settled(s, id)
    ensures Settled(ReleaseFrom(s, i), id)
    ensures NotPublished(s.wire, ReleaseFrom(s, i).wire, id)
    decreases |s.out| - i
  {
    if i == |s.out| || s.quota == 0 {
    } else if s.out[i].state != Invalid {
      ReleaseSettled(s, i + 1, id);
    } else {
      var m := InFlight(s.out[i]);
      var s1 := s.(out := s.out[i := m]);
      if CanSend(s1) {
        ReleaseSettled(Send(s1, PublishOf(m)).(quota := s.quota - 1), i + 1, id);
      }
    }
  }

  lemma {:induction false} RetrySettled(s: Session, i: nat, id: nat)
    requires i <= |s.out| && Settled(s, id)
    ensures Settled(RetryFrom(s, i), id)
    ensures NotPublished(s.wire, RetryFrom(s, i).wire, id)
    decreases |s.out| - i
  {
    if i < |s.out| {
      RetrySettled(Retry(s, i), i + 1, id);
    }
  }

  lemma ResetSettled(s: Session, quotaOnly: bool, id: nat)
    requires OwnStates(s.out) && Settled(s, id) && Within(s, id, s.maximum)
    ensures Settled(Reset(s, quotaOnly), id)
  {
  }

  lemma DropSettled(s: Session, j: nat, id: nat)
    requires j < |s.out| && Settled(s, id) && Within(s, id, s.maximum)
    ensures Settled(Drop(s, j), id) && Within(Drop(s, j), id, s.maximum)
  {
    var t := Drop(s, j);
    assert forall i | 0 <= i < |t.out| :: t.out[i] == s.out[if i < j then i else i + 1];
  }

  lemma SameWithin(s: Session, t: Session, id: nat)
    requires Within(s, id, s.maximum) && SameList(s.out, t.out) && t.maximum == s.maximum
    ensures Within(t, id, t.maximum)
  {
  }

  /** What a step must keep. */
  predicate StaysSettled(s: Session, t: Session, id: nat) {
    Settled(t, id) && Within(t, id, t.maximum) && NotPublished(s.wire, t.wire, id)
  }

  lemma ReleaseStays(s: Session, id: nat)
    requires Settled(s, id) && Within(s, id, s.maximum)
    ensures StaysSettled(s, Release(s), id)
  {
    ReleaseSettled(s, 0, id);
    ReleaseKeeps(s, 0);
    SameWithin(s, Release(s), id);
  }

  lemma PublishSettled(s: Session, mid: Mid, qos: Qos, id: nat)
    requires Settled(s, id) && Within(s, id, s.maximum)
    ensures StaysSettled(s, Publishing(s, mid, qos), id)
  {
    var q := Queued(s, mid, qos);
    assert Settled(q, id) && Within(q, id, q.maximum);
    ReleaseStays(q, id);
  }

  lemma ReconnectSettled(s: Session, life: nat, id: nat)
    requires OwnStates(s.out) && Settled(s, id) && Within(s, id, s.maximum)
    ensures StaysSettled(s, Reconnecting(s, life), id)
  {
    ResetSettled(s, false, id);
  }

  lemma ConnackSettled(s: Session, maximum: nat, id: nat)
    requires OwnStates(s.out) && Settled(s, id) && Within(s, id, maximum) && s.state == Connecting
    ensures StaysSettled(s, TakeConnack(s, maximum), id)
  {
    ResetSettled(s.(maximum := maximum, quota := maximum), true, id);
  }

  lemma RetryStays(s: Session, id: nat)
    requires Settled(s, id) && Within(s, id, s.maximum)
    ensures StaysSettled(s, RetryFrom(s, 0), id)
  {
    RetrySettled(s, 0, id);
    RetryKeeps(s, 0);
    RetriedAccounts(s, RetryFrom(s, 0));
    SameWithin(s, RetryFrom(s, 0), id);
  }

  lemma ActivateSettled(s: Session, id: nat)
    requires Settled(s, id) && Within(s, id, s.maximum)
    ensures StaysSettled(s, Activating(s), id)
  {
    RetryStays(s.(state := Active), id);
    RetryStays(s, id);
  }

  lemma RemoveSettled(s: Session, id: nat)
    requires s.phase.Counted? && Settled(s, id) && Within(s, id, s.maximum)
    ensures StaysSettled(s, RemoveAcked(s), id)
  {
    var j := Find(s.out, s.phase.mid);
    if j < |s.out| { DropSettled(s, j, id); }
  }

  lemma FailPubrecSettled(s: Session, mid: Mid, id: nat)
    requires Settled(s, id) && Within(s, id, s.maximum)
    ensures StaysSettled(s, FailPubrec(s, mid), id)
  {
    var j := Find(s.out, mid);
    if j < |s.out| { DropSettled(s, j, id); }
  }

  lemma AcceptPubrecSettled(s: Session, mid: Mid, id: nat)
    requires Settled(s, id) && Within(s, id, s.maximum)
    ensures StaysSettled(s, AcceptPubrec(s, mid), id)
  {
  }

  /** A CONNACK that is taken in leaves the message a place. */
  predicate KeepsPlace(s: Session, e: Event, id: nat) {
    e.Connack? && s.state == Connecting ==> Within(s, id, e.maximum)
  }

  predicate KeepsPlaces(s: Session, es: seq<Event>, id: nat)
    decreases |es|
  {
    es == [] || (KeepsPlace(s, es[0], id) && KeepsPlaces(Step(s, es[0]), es[1..], id))
  }

  lemma {:induction false} AckStepSettled(s: Session, e: Event, id: nat)
    requires Settled(s, id) && Within(s, id, s.maximum) && Enabled(s, e) && IsAckStep(e)
    ensures StaysSettled(s, Step(s, e), id)
  {
    match e
    case AckRemove => RemoveSettled(s, id);
    case AckRelease => ReleaseStays(s.(phase := Idle), id);
    case PubrecOk(mid) => AcceptPubrecSettled(s, mid, id);
    case PubrecFail(mid) => FailPubrecSettled(s, mid, id);
    case PubrecFailRelease => ReleaseStays(RaiseQuota(s).(phase := Idle), id);
    case _ =>
  }

  lemma {:induction false} StepSettled(s: Session, e: Event, id: nat)
    requires OwnStates(s.out) && Settled(s, id) && Within(s, id, s.maximum) && KeepsPlace(s, e, id)
    ensures StaysSettled(s, Step(s, e), id)
  {
    if Enabled(s, e) {
      if IsAckStep(e) {
        AckStepSettled(s, e, id);
      } else {
        match e
        case Publish(mid, qos) => PublishSettled(s, mid, qos, id);
        case Lose =>
        case Reconnect(life) => ReconnectSettled(s, life, id);
        case Connack(maximum) => if s.state == Connecting { ConnackSettled(s, maximum, id); }
        case Activate => ActivateSettled(s, id);
      }
    }
  }

  /**
   A message with an accepted PUBREC and a place in the window is not published again, whatever the
   broker sends, as long as every CONNACK leaves it its place.
   */
  lemma {:induction false} RunSettled(s: Session, es: seq<Event>, id: nat)
    requires Accounted(s) && Settled(s, id) && Within(s, id, s.maximum) && KeepsPlaces(s, es, id)
    ensures StaysSettled(s, Run(s, es), id)
    decreases |es|
  {
    if es != [] {
      StepSettled(s, es[0], id);
      StepAccounts(s, es[0]);
      RunSettled(Step(s, es[0]), es[1..], id);
    }
  }

  /** No two listed messages are the same publish. */
  lemma IdsDiffer(s: Session, i: nat, j: nat)
    requires Accounted(s) && i < j < |s.out|
    ensures s.out[i].id != s.out[j].id
  {
    var ids := Ids(s.out);
    UptoOnce(s.accepted, ids[j]);
    assert ids == ids[..j] + [ids[j]] + ids[j + 1..];
    assert ids[..j][i] == ids[i];
  }

  lemma ListedAccepted(s: Session, i: nat)
    requires Accounted(s) && i < |s.out|
    ensures s.out[i].id < s.accepted
  {
    UptoOnce(s.accepted, s.out[i].id);
    assert Ids(s.out)[i] == s.out[i].id;
    assert s.out[i].id in multiset(Ids(s.out));
  }

  /** The message at i, and no other one, has this identity. */
  lemma PlaceOf(s: Session, i: nat)
    requires Accounted(s) && i < |s.out|
    ensures Within(s, s.out[i].id, i + 1)
    ensures Released(s.out[i]) ==> Settled(s, s.out[i].id)
  {
    ListedAccepted(s, i);
    forall l | 0 <= l < |s.out| && s.out[l].id == s.out[i].id
      ensures l == i
    {
      if l < i { IdsDiffer(s, l, i); } else if l > i { IdsDiffer(s, i, l); }
    }
  }
}
