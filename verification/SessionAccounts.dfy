/**
 What every run keeps, whatever the broker sends: each accepted publish is either still in
 the outgoing list or was reported by on_publish exactly once, the stored queue length is the
 length of the list, and a message only ever holds states of its own QoS.
 */
module SessionAccounts {
  import opened Basics
  import opened Session

  function Ids(out: seq<Message>): seq<nat> {
    seq(|out|, i requires 0 <= i < |out| => out[i].id)
  }

  /** The states a message of this QoS may hold. */
  predicate OwnState(m: Message) {
    if m.qos == 1 then m.state in {Invalid, PublishQos1, WaitForPuback}
    else m.state in {Invalid, PublishQos2, WaitForPubrec, ResendPubrel, WaitForPubcomp}
  }

  predicate OwnStates(out: seq<Message>) { forall i | 0 <= i < |out| :: OwnState(out[i]) }

  /** No accepted publish is lost, duplicated or invented. */
  ghost predicate Conserved(s: Session) {
    multiset(s.callbacks) + multiset(Ids(s.out)) == multiset(Upto(s.accepted))
  }

  ghost predicate Accounted(s: Session) {
    && Conserved(s)
    && s.queueLen == |s.out|
    && OwnStates(s.out)
  }

  /** The list holds the same messages, in the same order, up to state and dup flag. */
  predicate SameList(a: seq<Message>, b: seq<Message>) {
    && |a| == |b|
    && forall i | 0 <= i < |a| :: a[i].id == b[i].id && a[i].mid == b[i].mid && a[i].qos == b[i].qos
  }

  predicate SameAccounts(s: Session, t: Session) {
    && SameList(s.out, t.out)
    && t.accepted == s.accepted && t.callbacks == s.callbacks && t.maximum == s.maximum
    && t.phase == s.phase
  }

  lemma {:induction false} ReleaseKeeps(s: Session, i: nat)
    requires i <= |s.out|
    ensures SameAccounts(s, ReleaseFrom(s, i))
    ensures ReleaseFrom(s, i).queueLen == s.queueLen
    ensures OwnStates(s.out) ==> OwnStates(ReleaseFrom(s, i).out)
    decreases |s.out| - i
  {
    if i == |s.out| || s.quota == 0 {
    } else if s.out[i].state != Invalid {
      ReleaseKeeps(s, i + 1);
    } else {
      var m := InFlight(s.out[i]);
      var s1 := s.(out := s.out[i := m]);
      if CanSend(s1) {
        ReleaseKeeps(Send(s1, PublishOf(m)).(quota := s.quota - 1), i + 1);
      }
    }
  }

  /** The list holds the same messages in the same states; only dup flags may differ. */
  predicate SameStates(a: seq<Message>, b: seq<Message>) {
    |a| == |b| && forall i | 0 <= i < |a| :: b[i] == a[i].(dup := b[i].dup)
  }

  /** What retry leaves alone: all but dup flags, the connection and what was sent on it. */
  predicate Retried(s: Session, t: Session) {
    && SameStates(s.out, t.out)
    && t.quota == s.quota && t.maximum == s.maximum && t.queueLen == s.queueLen && t.phase == s.phase
    && t.accepted == s.accepted && t.callbacks == s.callbacks
    && (t.state == s.state || t.state == Down)
  }

  lemma RetryOne(s: Session, i: nat)
    requires i < |s.out|
    ensures Retried(s, Retry(s, i))
  {
  }

  lemma RetriedOn(s: Session, t: Session, u: Session)
    requires Retried(s, t) && Retried(t, u)
    ensures Retried(s, u)
  {
    forall i | 0 <= i < |s.out|
      ensures u.out[i] == s.out[i].(dup := u.out[i].dup)
    {
      assert t.out[i] == s.out[i].(dup := t.out[i].dup);
    }
  }

  lemma RetriedAccounts(s: Session, t: Session)
    requires Retried(s, t)
    ensures SameAccounts(s, t)
    ensures OwnStates(s.out) ==> OwnStates(t.out)
  {
    assert forall i | 0 <= i < |t.out| :: t.out[i] == s.out[i].(dup := t.out[i].dup);
  }

  lemma {:induction false} RetryKeeps(s: Session, i: nat)
    requires i <= |s.out|
    ensures Retried(s, RetryFrom(s, i))
    decreases |s.out| - i
  {
    if i < |s.out| {
      RetryOne(s, i);
      RetryKeeps(Retry(s, i), i + 1);
      RetriedOn(s, Retry(s, i), RetryFrom(s, i));
    }
  }

  lemma SameListSameIds(a: seq<Message>, b: seq<Message>)
    requires SameList(a, b)
    ensures Ids(a) == Ids(b)
  {
  }

  lemma KeptAccounts(s: Session, t: Session)
    requires Conserved(s) && SameAccounts(s, t)
    ensures Conserved(t)
  {
    SameListSameIds(s.out, t.out);
  }

  lemma QueuedAccounts(s: Session, mid: Mid, qos: Qos)
    requires Accounted(s)
    ensures Accounted(Queued(s, mid, qos))
  {
    var t := Queued(s, mid, qos);
    assert Ids(t.out) == Ids(s.out) + [s.accepted];
    assert Upto(t.accepted) == Upto(s.accepted) + [s.accepted];
  }

  lemma DropAccounts(s: Session, j: nat)
    requires Accounted(s) && j < |s.out|
    ensures Accounted(Drop(s, j))
  {
    var t := Drop(s, j);
    var ids := Ids(s.out);
    assert Ids(t.out) == ids[..j] + ids[j + 1..];
    assert ids == ids[..j] + [ids[j]] + ids[j + 1..];
  }

  lemma ReleaseAccounts(s: Session)
    requires Accounted(s)
    ensures Accounted(Release(s))
  {
    ReleaseKeeps(s, 0);
    KeptAccounts(s, Release(s));
  }

  lemma RetryAccounts(s: Session)
    requires Accounted(s)
    ensures Accounted(RetryFrom(s, 0))
  {
    var t := RetryFrom(s, 0);
    RetryKeeps(s, 0);
    RetriedAccounts(s, t);
    KeptAccounts(s, t);
  }

  lemma ResetAccounts(s: Session, quotaOnly: bool)
    requires Accounted(s)
    ensures Accounted(Reset(s, quotaOnly))
  {
    KeptAccounts(s, Reset(s, quotaOnly));
  }

  lemma RemoveAccounts(s: Session)
    requires Accounted(s) && s.phase.Counted?
    ensures Accounted(RemoveAcked(s))
  {
    var j := Find(s.out, s.phase.mid);
    if j < |s.out| && s.out[j].qos == s.phase.qos { DropAccounts(s, j); }
  }

  lemma AcceptPubrecAccounts(s: Session, mid: Mid)
    requires Accounted(s)
    ensures Accounted(AcceptPubrec(s, mid))
  {
    AcceptPubrecKeeps(s, mid);
    KeptAccounts(s, AcceptPubrec(s, mid));
  }

  lemma AcceptPubrecKeeps(s: Session, mid: Mid)
    ensures SameAccounts(s, AcceptPubrec(s, mid)) && AcceptPubrec(s, mid).queueLen == s.queueLen
    ensures OwnStates(s.out) ==> OwnStates(AcceptPubrec(s, mid).out)
  {
    var j := Find(s.out, mid);
    if s.state == Active && j < |s.out| && s.out[j].qos == 2 {
      ReleasedStates(s.out, j);
    }
  }

  lemma ReleasedStates(out: seq<Message>, j: nat)
    requires j < |out| && out[j].qos == 2
    ensures SameList(out, out[j := out[j].(state := WaitForPubcomp)])
    ensures OwnStates(out) ==> OwnStates(out[j := out[j].(state := WaitForPubcomp)])
  {
  }

  lemma FailPubrecAccounts(s: Session, mid: Mid)
    requires Accounted(s)
    ensures Accounted(FailPubrec(s, mid))
  {
    var j := Find(s.out, mid);
    if s.state == Active && j < |s.out| && s.out[j].qos == 2 { DropAccounts(s, j); }
  }

  lemma PublishAccounts(s: Session, mid: Mid, qos: Qos)
    requires Accounted(s)
    ensures Accounted(Publishing(s, mid, qos))
  {
    QueuedAccounts(s, mid, qos);
    ReleaseAccounts(Queued(s, mid, qos));
  }

  lemma ReconnectAccounts(s: Session, life: nat)
    requires Accounted(s)
    ensures Accounted(Reconnecting(s, life))
  {
    ResetAccounts(s, false);
  }

  lemma ConnackAccounts(s: Session, maximum: nat)
    requires Accounted(s)
    ensures Accounted(TakeConnack(s, maximum))
  {
    ResetAccounts(s.(maximum := maximum, quota := maximum), true);
  }

  lemma ActivateAccounts(s: Session)
    requires Accounted(s)
    ensures Accounted(Activating(s))
  {
    RetryAccounts(s.(state := Active));
    RetryAccounts(s);
  }

  lemma CountAccounts(s: Session, mid: Mid, qos: Qos)
    requires Accounted(s)
    ensures Accounted(CountAck(s, mid, qos))
  {
    QuietAccounts(s, CountAck(s, mid, qos));
  }

  lemma AckReleaseAccounts(s: Session)
    requires Accounted(s)
    ensures Accounted(Release(s.(phase := Idle)))
  {
    var r := s.(phase := Idle);
    QuietAccounts(s, r);
    ReleaseAccounts(r);
  }

  lemma MalformedAccounts(s: Session)
    requires Accounted(s)
    ensures Accounted((if s.state == Active then RaiseQuota(s) else s).(state := Down))
  {
    QuietAccounts(s, (if s.state == Active then RaiseQuota(s) else s).(state := Down));
  }

  lemma FailReleaseAccounts(s: Session)
    requires Accounted(s)
    ensures Accounted(Release(RaiseQuota(s).(phase := Idle)))
  {
    var r := RaiseQuota(s).(phase := Idle);
    QuietAccounts(s, r);
    ReleaseAccounts(r);
  }

  /** Steps that leave the list and the callbacks alone. */
  lemma QuietAccounts(s: Session, t: Session)
    requires Accounted(s) && t.out == s.out && t.queueLen == s.queueLen
    requires t.accepted == s.accepted && t.callbacks == s.callbacks
    ensures Accounted(t)
  {
  }

  predicate IsAckStep(e: Event) {
    e.AckCount? || e.AckRemove? || e.AckRelease? || e.AckMalformed? || e.PubrecOk? || e.PubrecFail? || e.PubrecFailRelease?
  }

  lemma {:induction false} AckStepAccounts(s: Session, e: Event)
    requires Accounted(s) && Enabled(s, e) && IsAckStep(e)
    ensures Accounted(Step(s, e))
  {
    match e
    case AckCount(mid, qos) => CountAccounts(s, mid, qos);
    case AckRemove => RemoveAccounts(s);
    case AckRelease => AckReleaseAccounts(s);
    case AckMalformed => MalformedAccounts(s);
    case PubrecOk(mid) => AcceptPubrecAccounts(s, mid);
    case PubrecFail(mid) => FailPubrecAccounts(s, mid);
    case PubrecFailRelease => FailReleaseAccounts(s);
  }

  lemma {:induction false} StepAccounts(s: Session, e: Event)
    requires Accounted(s)
    ensures Accounted(Step(s, e))
  {
    if Enabled(s, e) {
      if IsAckStep(e) {
        AckStepAccounts(s, e);
      } else {
        match e
        case Publish(mid, qos) => PublishAccounts(s, mid, qos);
        case Lose => QuietAccounts(s, s.(state := Down));
        case Reconnect(life) => ReconnectAccounts(s, life);
        case Connack(maximum) => ConnackAccounts(s, maximum);
        case Activate => ActivateAccounts(s);
      }
    }
  }

  lemma {:induction false} RunAccounts(s: Session, es: seq<Event>)
    requires Accounted(s)
    ensures Accounted(Run(s, es))
    decreases |es|
  {
    if es != [] {
      StepAccounts(s, es[0]);
      RunAccounts(Step(s, es[0]), es[1..]);
    }
  }

  /** The conservation law, over every run of a new client and every broker behaviour. */
  lemma PublishesAreConserved(maximum: nat, es: seq<Event>)
    ensures
      var s := Run(Fresh(maximum), es);
      && s.accepted == |s.callbacks| + |s.out|
      && s.queueLen == |s.out|
      && (forall i | 0 <= i < |s.out| :: OwnState(s.out[i]))
      && (forall n: nat | n < s.accepted ::
            multiset(s.callbacks)[n] + multiset(Ids(s.out))[n] == 1)
  {
    var s := Run(Fresh(maximum), es);
    assert Upto(0) == [];
    RunAccounts(Fresh(maximum), es);
    assert |multiset(s.callbacks) + multiset(Ids(s.out))| == |multiset(Upto(s.accepted))|;
    forall n: nat | n < s.accepted
      ensures multiset(s.callbacks)[n] + multiset(Ids(s.out))[n] == 1
    {
      UptoOnce(s.accepted, n);
    }
  }
}
