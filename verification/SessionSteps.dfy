/** Every step of a conforming run keeps the flow control invariant. */
module SessionSteps {
  import opened Basics
  import opened Session
  import opened SessionAccounts
  import opened SessionQuota
  import opened SessionAwaiting

  // ---------------------------------------------------------------- release

  lemma {:induction false} SkipLive(s: Session, i: nat, j: nat)
    requires i <= j <= |s.out|
    requires forall l | i <= l < j :: Live(s.out[l])
    ensures ReleaseFrom(s, i) == ReleaseFrom(s, j)
    decreases j - i
  {
    if i < j && s.quota > 0 { SkipLive(s, i + 1, j); }
  }

  /** Send the first waiting message, if there is one and there is quota. */
  function SendNext(s: Session, k: nat): Session
    requires k <= |s.out|
  {
    if k == |s.out| || s.quota == 0 then s
    else
      var m := InFlight(s.out[k]);
      var s1 := s.(out := s.out[k := m]);
      if CanSend(s) then Send(s1, PublishOf(m)).(quota := s.quota - 1) else s1.(state := Down)
  }

  /** With quota for one message, or one message waiting, the release loop sends just one. */
  lemma ReleaseIsSendNext(s: Session, k: nat)
    requires Shape(s.out, k)
    requires s.quota <= 1 || |s.out| - k <= 1 || !CanSend(s)
    ensures Release(s) == SendNext(s, k)
  {
    SkipLive(s, 0, k);
    if k < |s.out| && s.quota > 0 && CanSend(s) {
      var t := SendNext(s, k);
      assert Release(s) == ReleaseFrom(t, k + 1);
    }
  }

  /** What holds when message__release_to_inflight is called with k live messages. */
  ghost predicate ReadyToRelease(s: Session, k: nat) {
    && Listed(s) && Shape(s.out, k)
    && s.quota <= s.maximum
    && (if s.state == Down then
          && s.quota + k >= s.maximum + Debt(s.phase)
          && k + 1 + Lag(s.phase) >= Min(s.maximum, |s.out|)
        else
          && s.quota + k == s.maximum + Debt(s.phase)
          && (s.quota <= 1 || |s.out| - k <= 1))
    && ReleasedBelow(s) && CountedKnown(s) && AwaitingKnown(s)
  }

  lemma SendNextShape(s: Session, k: nat)
    requires Shape(s.out, k) && k < |s.out| && s.quota > 0
    ensures Shape(SendNext(s, k).out, k + 1)
    ensures LiveCount(SendNext(s, k).out) == k + 1
  {
    ShapeCount(SendNext(s, k).out, k + 1);
  }

  lemma SendNextCounted(s: Session, k: nat)
    requires ReadyToRelease(s, k) && k < |s.out| && s.quota > 0
    ensures CountedKnown(SendNext(s, k))
  {
    if s.phase.Counted? {
      InFlightSame(s.out, k);
      FindSame(s.out, s.out[k := InFlight(s.out[k])], s.phase.mid);
      var j := Find(s.out, s.phase.mid);
      assert j < k && s.out[j].mid != s.out[k].mid;
      WaitingNotAwaitedBy(s, k);
    }
  }

  /** Sending the message at k outdates no acknowledgement that was counted. */
  lemma WaitingNotAwaitedBy(s: Session, k: nat)
    requires s.phase.Counted? && k < |s.out| && s.quota > 0 && s.out[k].mid != s.phase.mid
    requires s.state != Down ==> forall a | a in s.awaiting :: a.mid != s.phase.mid
    ensures SendNext(s, k).state != Down ==> forall a | a in SendNext(s, k).awaiting :: a.mid != s.phase.mid
  {
  }

  lemma InFlightSame(out: seq<Message>, k: nat)
    requires k < |out|
    ensures SameList(out, out[k := InFlight(out[k])])
    ensures OwnStates(out) ==> OwnStates(out[k := InFlight(out[k])])
  {
  }

  lemma SendNextListed(s: Session, k: nat)
    requires Listed(s) && Shape(s.out, k) && k < |s.out| && s.quota > 0 && ReleasedBelow(s)
    ensures Listed(SendNext(s, k)) && ReleasedBelow(SendNext(s, k))
  {
    InFlightSame(s.out, k);
    SameListed(s, SendNext(s, k));
  }

  lemma SendNextInv(s: Session, k: nat)
    requires ReadyToRelease(s, k) && k < |s.out| && s.quota > 0
    ensures Inv(SendNext(s, k))
  {
    SendNextShape(s, k);
    SendNextCounted(s, k);
    SendNextListed(s, k);
    SendNextAwaiting(s, k);
    SentInv(s, SendNext(s, k), k);
  }

  lemma SendNextAwaiting(s: Session, k: nat)
    requires DistinctMids(s.out) && AwaitingKnown(s) && k < |s.out| && !Live(s.out[k]) && s.quota > 0
    ensures AwaitingKnown(SendNext(s, k))
  {
    ReleaseOneAwaiting(s, k);
    if CanSend(s) {
      var m := InFlight(s.out[k]);
      QuietKnown(Send(s.(out := s.out[k := m]), PublishOf(m)), SendNext(s, k));
    }
  }

  /** One more message is live, and it has taken quota unless the connection is down. */
  lemma SentInv(s: Session, t: Session, k: nat)
    requires ReadyToRelease(s, k) && k < |s.out| && s.quota > 0
    requires Listed(t) && Shape(t.out, k + 1) && LiveCount(t.out) == k + 1 && |t.out| == |s.out|
    requires ReleasedBelow(t) && CountedKnown(t) && AwaitingKnown(t)
    requires t.phase == s.phase && t.maximum == s.maximum
    requires if t.state == Down then t.quota == s.quota else t.quota == s.quota - 1 && t.state == s.state
    ensures Inv(t)
  {
  }

  lemma ReleaseInv(s: Session, k: nat)
    requires ReadyToRelease(s, k)
    ensures Inv(Release(s))
  {
    ReleaseIsSendNext(s, k);
    ShapeCount(s.out, k);
    if k < |s.out| && s.quota > 0 { SendNextInv(s, k); }
  }

  // ---------------------------------------------------------------- publish

  lemma QueuedCounted(s: Session, mid: Mid, qos: Qos)
    requires Inv(s) && FreshMid(s.out, mid)
    ensures CountedKnown(Queued(s, mid, qos))
  {
    var q := Queued(s, mid, qos);
    if s.phase.Counted? { FindAt(q.out, s.phase.mid, Find(s.out, s.phase.mid)); }
  }

  lemma QueuedListed(s: Session, mid: Mid, qos: Qos)
    requires Listed(s) && FreshMid(s.out, mid)
    ensures Listed(Queued(s, mid, qos))
  {
    var q := Queued(s, mid, qos);
    forall i, j | 0 <= i < j < |q.out|
      ensures q.out[i].mid != q.out[j].mid && q.out[i].id < q.out[j].id
    {
      assert q.out[i] == s.out[i];
      if j < |s.out| { assert q.out[j] == s.out[j]; }
    }
  }

  lemma PublishInv(s: Session, mid: Mid, qos: Qos)
    requires Inv(s) && FreshMid(s.out, mid)
    ensures Inv(Publishing(s, mid, qos))
  {
    QueuedCounted(s, mid, qos);
    QueuedAwaiting(s, mid, qos);
    ReleaseInv(Queued(s, mid, qos), LiveCount(s.out));
  }

  lemma AckReleaseInv(s: Session)
    requires Inv(s) && s.phase == Removed
    ensures Inv(Release(s.(phase := Idle)))
  {
    ReleaseInv(s.(phase := Idle), LiveCount(s.out));
  }

  lemma FailReleaseInv(s: Session)
    requires Inv(s) && s.phase == FailRemoved
    ensures Inv(Release(RaiseQuota(s).(phase := Idle)))
  {
    ReleaseInv(RaiseQuota(s).(phase := Idle), LiveCount(s.out));
  }

  lemma LoseInv(s: Session)
    requires Inv(s)
    ensures Inv(s.(state := Down))
  {
  }

  // ---------------------------------------------------------------- reset

  /** After a reset exactly the first `maximum` messages are live. */
  lemma ResetShape(s: Session)
    requires Inv(s) && s.phase == Idle
    ensures Shape(Reset(s, false).out, Min(s.maximum, |s.out|))
    ensures LiveCount(Reset(s, false).out) == Min(s.maximum, |s.out|)
  {
    LoseInv(s);
    ShapeCount(Reset(s, false).out, Min(s.maximum, |s.out|));
  }

  lemma ResetListed(s: Session)
    requires Listed(s)
    ensures Listed(Reset(s, false))
  {
    var t := Reset(s, false);
    assert SameList(s.out, t.out);
  }

  lemma ReconnectInv(s: Session, life: nat)
    requires Inv(s) && s.phase == Idle
    ensures Inv(Reconnecting(s, life))
  {
    ResetShape(s);
    ResetListed(s);
    UpReleasedBelow(Reconnecting(s, life));
  }

  /** With the same maximum, CONNACK's reset changes nothing. */
  lemma ConnackResetIsIdle(s: Session)
    requires Inv(s) && s.phase == Idle && s.state == Connecting
    requires s.queueLen == |s.out|
    ensures Reset(s.(quota := s.maximum), true) == s
  {
    var t := Reset(s.(quota := s.maximum), true);
    assert LiveCount(s.out) == Min(s.maximum, |s.out|);
    assert t.out == s.out;
  }

  lemma ConnackInv(s: Session)
    requires Inv(s) && s.phase == Idle
    ensures Inv(TakeConnack(s, s.maximum))
  {
    if s.state == Connecting {
      var n := s.(queueLen := |s.out|);
      ConnackResetIsIdle(n);
      assert TakeConnack(s, s.maximum) == n.(state := Accepted);
    }
  }

  // ---------------------------------------------------------------- retry

  lemma RetriedListed(s: Session, t: Session)
    requires Listed(s) && Retried(s, t)
    ensures Listed(t)
  {
    RetriedAccounts(s, t);
    SameListed(s, t);
  }

  /** The order and the packet ids do not depend on states and dup flags. */
  lemma SameListed(s: Session, t: Session)
    requires Listed(s) && SameList(s.out, t.out) && OwnStates(t.out) && t.accepted == s.accepted
    ensures Listed(t)
  {
    forall i, j | 0 <= i < j < |t.out|
      ensures t.out[i].mid != t.out[j].mid && t.out[i].id < t.out[j].id
    {
      assert s.out[i].mid != s.out[j].mid && s.out[i].id < s.out[j].id;
    }
  }

  lemma RetriedShape(s: Session, t: Session)
    requires Retried(s, t) && Shape(s.out, LiveCount(s.out))
    ensures Shape(t.out, LiveCount(s.out)) && LiveCount(t.out) == LiveCount(s.out)
    ensures ReleasedBelow(s) ==> ReleasedBelow(t)
  {
    assert forall i | 0 <= i < |t.out| :: t.out[i] == s.out[i].(dup := t.out[i].dup);
    ShapeCount(t.out, LiveCount(s.out));
  }

  lemma RetriedInv(s: Session, t: Session)
    requires Inv(s) && s.phase == Idle && s.state in {Active, Down} && Retried(s, t) && AwaitingKnown(t)
    ensures Inv(t)
  {
    RetriedListed(s, t);
    RetriedShape(s, t);
  }

  lemma RetryOneInv(s: Session, i: nat)
    requires Inv(s) && i < |s.out| && s.phase == Idle && RetryNew(s, i) && s.state in {Active, Down}
    ensures Inv(Retry(s, i)) && RetryNew(Retry(s, i), i + 1)
    ensures Retry(s, i).phase == Idle && Retry(s, i).state in {Active, Down}
    ensures |Retry(s, i).out| == |s.out|
  {
    RetryOne(s, i);
    RetryOneAwaiting(s, i);
    RetriedInv(s, Retry(s, i));
  }

  lemma {:induction false} RetryInv(s: Session, i: nat)
    requires Inv(s) && i <= |s.out| && s.phase == Idle && RetryNew(s, i) && s.state in {Active, Down}
    ensures Inv(RetryFrom(s, i))
    decreases |s.out| - i
  {
    if i < |s.out| {
      RetryOneInv(s, i);
      RetryInv(Retry(s, i), i + 1);
    }
  }

  lemma ActivateInv(s: Session)
    requires Inv(s) && s.phase == Idle
    ensures Inv(Activating(s))
  {
    if s.state == Accepted {
      AcceptedRetryNew(s);
      RetryInv(s.(state := Active), 0);
    } else if s.state == Down {
      RetryInv(s, 0);
    }
  }

  // ---------------------------------------------------------------- removal

  /** Removing a live message moves the others up and leaves one live message less. */
  lemma DropShape(out: seq<Message>, j: nat)
    requires Shape(out, LiveCount(out)) && j < |out| && Live(out[j])
    ensures Shape(Without(out, j), LiveCount(out) - 1)
    ensures LiveCount(Without(out, j)) == LiveCount(out) - 1
  {
    ShapeCount(Without(out, j), LiveCount(out) - 1);
  }

  lemma DropReleased(s: Session, j: nat)
    requires ReleasedBelow(s) && j < |s.out| && j < Bound(s)
    ensures forall i | 0 <= i < |s.out| - 1 && Released(Without(s.out, j)[i]) :: i < Bound(s) - 1
  {
    assert forall i | 0 <= i < |s.out| - 1 :: Without(s.out, j)[i] == s.out[if i < j then i else i + 1];
  }

  /** The message is gone, and its handler waits for the callback. */
  predicate Gone(s: Session, t: Session, j: nat, phase: AckPhase) {
    && j < |s.out| && t.out == Without(s.out, j) && t.phase == phase
    && t.quota == s.quota && t.maximum == s.maximum && t.state == s.state
  }

  lemma RemovedInv(s: Session, t: Session, j: nat)
    requires Inv(s) && s.phase.Counted? && Gone(s, t, j, Removed) && Live(s.out[j]) && j < Bound(s)
    requires Listed(t) && AwaitingKnown(t)
    ensures Inv(t)
  {
    DropShape(s.out, j);
    DropReleased(s, j);
    assert ReleasedBelow(t);
  }

  lemma RemoveInv(s: Session)
    requires Inv(s) && s.phase.Counted?
    ensures Inv(RemoveAcked(s)) && RemoveAcked(s).phase == Removed
  {
    var j := Find(s.out, s.phase.mid);
    DropAwaiting(s, j);
    DropListed(s, j);
    RemovedInv(s, Drop(s, j).(phase := Removed), j);
  }

  // ---------------------------------------------------------------- acknowledgements

  /** A live message has taken quota. */
  lemma LiveTakesQuota(s: Session, j: nat)
    requires Inv(s) && s.phase == Idle && s.state == Active && j < |s.out| && Live(s.out[j])
    ensures s.quota < s.maximum && j < s.maximum
  {
  }

  lemma CountedInv(s: Session, t: Session, j: nat)
    requires Inv(s) && s.phase == Idle && s.state == Active && j < |s.out| && Live(s.out[j])
    requires t.phase.Counted? && t.out == s.out && t.quota == s.quota + 1 && t.maximum == s.maximum && t.state == s.state
    requires t.accepted == s.accepted && AwaitingKnown(t) && CountedKnown(t)
    ensures Inv(t)
  {
    LiveTakesQuota(s, j);
    UpReleasedBelow(t);
  }

  lemma CountInv(s: Session, mid: Mid, qos: Qos)
    requires Inv(s) && s.phase == Idle
    requires s.state == Active ==> AckFor(mid, qos) in s.awaiting
    ensures Inv(CountAck(s, mid, qos))
  {
    if s.state == Active {
      var j := AnswerPosition(s, AckFor(mid, qos));
      TakenAwaiting(s, AckFor(mid, qos));
      LiveTakesQuota(s, j);
      CountedInv(s, CountAck(s, mid, qos), j);
    } else {
      LoseInv(s);
    }
  }

  /** The message at j awaits its PUBCOMP, and the PUBREL was sent or the connection is down. */
  predicate PubrecTaken(s: Session, t: Session, j: nat) {
    && j < |s.out| && t.out == s.out[j := s.out[j].(state := WaitForPubcomp)]
    && t.quota == s.quota && t.maximum == s.maximum && t.phase == s.phase && t.accepted == s.accepted
    && t.state in {Active, Down}
  }

  lemma AcceptPubrecTakes(s: Session, mid: Mid, j: nat)
    requires s.state == Active && j == Find(s.out, mid) && j < |s.out| && s.out[j].qos == 2
    ensures PubrecTaken(s, AcceptPubrec(s, mid), j)
  {
  }

  lemma PubrecTakenListed(s: Session, t: Session, j: nat)
    requires Listed(s) && PubrecTaken(s, t, j) && s.out[j].qos == 2
    ensures Listed(t)
  {
    ReleasedStates(s.out, j);
    SameListed(s, t);
  }

  lemma PubrecTakenShape(s: Session, t: Session, j: nat)
    requires PubrecTaken(s, t, j) && Live(s.out[j]) && Shape(s.out, LiveCount(s.out))
    ensures Shape(t.out, LiveCount(s.out)) && LiveCount(t.out) == LiveCount(s.out)
  {
    ShapeCount(t.out, LiveCount(s.out));
  }

  lemma PubrecTakenInv(s: Session, t: Session, j: nat)
    requires Inv(s) && s.phase == Idle && s.state == Active && PubrecTaken(s, t, j) && AwaitingKnown(t)
    requires s.out[j].qos == 2 && Live(s.out[j])
    ensures Inv(t)
  {
    PubrecTakenListed(s, t, j);
    PubrecTakenShape(s, t, j);
    UpReleasedBelow(t);
  }

  lemma AcceptPubrecInv(s: Session, mid: Mid)
    requires Inv(s) && s.phase == Idle
    requires s.state == Active ==> Pubrec(mid) in s.awaiting
    ensures Inv(AcceptPubrec(s, mid))
  {
    if s.state == Active {
      var j := AnswerPosition(s, Pubrec(mid));
      assert OwnState(s.out[j]);
      AcceptPubrecAwaiting(s, mid, j);
      AcceptPubrecTakes(s, mid, j);
      PubrecTakenInv(s, AcceptPubrec(s, mid), j);
    } else {
      LoseInv(s);
    }
  }

  lemma FailedInv(s: Session, t: Session, j: nat)
    requires Inv(s) && s.phase == Idle && s.state == Active && Gone(s, t, j, FailRemoved) && Live(s.out[j])
    requires Listed(t) && AwaitingKnown(t)
    ensures Inv(t)
  {
    DropShape(s.out, j);
    UpReleasedBelow(t);
  }

  lemma FailPubrecDrop(s: Session, mid: Mid, j: nat)
    requires Inv(s) && s.phase == Idle && s.state == Active && Pubrec(mid) in s.awaiting
    requires j == Find(s.out, mid) && j < |s.out| && Answers(Pubrec(mid), s.out[j])
    requires forall b | b in s.awaiting && b != Pubrec(mid) :: b.mid != mid
    ensures Inv(Failed(s, mid, j))
  {
    FailedAwaiting(s, mid, j);
    FailedInv(s, Failed(s, mid, j), j);
  }

  lemma FailPubrecIsFailed(s: Session, mid: Mid, j: nat)
    requires s.state == Active && j == Find(s.out, mid) && j < |s.out| && s.out[j].qos == 2
    ensures FailPubrec(s, mid) == Failed(s, mid, j)
  {
  }

  lemma FailPubrecInv(s: Session, mid: Mid)
    requires Inv(s) && s.phase == Idle
    requires s.state == Active ==> Pubrec(mid) in s.awaiting
    ensures Inv(FailPubrec(s, mid))
  {
    if s.state == Active {
      var j := AnswerPosition(s, Pubrec(mid));
      assert OwnState(s.out[j]);
      FailPubrecIsFailed(s, mid, j);
      FailPubrecDrop(s, mid, j);
    } else {
      LoseInv(s);
    }
  }

  // ---------------------------------------------------------------- runs

  lemma {:induction false} StepInv(s: Session, e: Event)
    requires Inv(s) && Conforming(s, e)
    ensures Inv(Step(s, e)) && Step(s, e).maximum == s.maximum
  {
    StepKeepsMaximum(s, e);
    if Enabled(s, e) {
      match e
      case Publish(mid, qos) => PublishInv(s, mid, qos);
      case Lose => LoseInv(s);
      case Reconnect(life) => ReconnectInv(s, life);
      case Connack(maximum) => ConnackInv(s); LoseInv(s);
      case Activate => ActivateInv(s);
      case AckCount(mid, qos) => CountInv(s, mid, qos);
      case AckRemove => RemoveInv(s);
      case AckRelease => AckReleaseInv(s);
      case AckMalformed => LoseInv(s);
      case PubrecOk(mid) => AcceptPubrecInv(s, mid);
      case PubrecFail(mid) => FailPubrecInv(s, mid);
      case PubrecFailRelease => FailReleaseInv(s);
    }
  }

  lemma StepKeepsMaximum(s: Session, e: Event)
    requires e.Connack? ==> e.maximum == s.maximum
    ensures Step(s, e).maximum == s.maximum
  {
    match e
    case Publish(mid, qos) => ReleaseKeeps(Queued(s, mid, qos), 0);
    case Activate => RetryKeeps(s.(state := Active), 0); RetryKeeps(s, 0);
    case AckRelease => ReleaseKeeps(s.(phase := Idle), 0);
    case PubrecFailRelease => ReleaseKeeps(RaiseQuota(s).(phase := Idle), 0);
    case _ =>
  }

  lemma {:induction false} RunInv(s: Session, es: seq<Event>)
    requires Inv(s) && ConformingRun(s, es)
    ensures Inv(Run(s, es)) && Run(s, es).maximum == s.maximum
    decreases |es|
  {
    if es != [] {
      StepInv(s, es[0]);
      RunInv(Step(s, es[0]), es[1..]);
    }
  }

  lemma FreshInv(maximum: nat)
    ensures Inv(Fresh(maximum))
  {
  }

  /**
   The quota law.  Whenever the session is up and no handler is under way, quota plus live
   messages is exactly the maximum, and a message waits only if there is no quota.
   */
  lemma QuotaIsExact(maximum: nat, es: seq<Event>)
    requires ConformingRun(Fresh(maximum), es)
    ensures
      var s := Run(Fresh(maximum), es);
      s.state != Down && s.phase == Idle ==>
        && s.quota + LiveCount(s.out) == maximum
        && (s.quota == 0 || forall i | 0 <= i < |s.out| :: Live(s.out[i]))
  {
    FreshInv(maximum);
    RunInv(Fresh(maximum), es);
  }

  /**
   Nothing is sent while its acknowledgement is already outstanding, so that treating the
   outstanding acknowledgements as a set assumes nothing about the broker.
   */
  lemma NothingIsSentTwice(maximum: nat, es: seq<Event>)
    requires ConformingRun(Fresh(maximum), es)
    ensures !Run(Fresh(maximum), es).twice
  {
    FreshInv(maximum);
    RunInv(Fresh(maximum), es);
  }
}
