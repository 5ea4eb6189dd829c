/**
 Flow control when CONNACK may change the inflight maximum: in an established session quota
 plus live messages never exceeds the maximum in force.
 */
module SessionBound {
  import opened Basics
  import opened Session
  import opened SessionAccounts
  import opened SessionQuota
  import opened SessionAwaiting
  import opened SessionSteps

  // ---------------------------------------------------------------- counting

  lemma {:induction false} CountUpdate(out: seq<Message>, i: nat, m: Message)
    requires i < |out|
    ensures LiveCount(out[i := m])
         == LiveCount(out) - (if Live(out[i]) then 1 else 0) + (if Live(m) then 1 else 0)
  {
    var n := |out| - 1;
    var upd := out[i := m];
    if i < n {
      CountUpdate(out[..n], i, m);
      assert upd[..n] == out[..n][i := m];
    } else {
      assert upd[..n] == out[..n];
    }
  }

  lemma {:induction false} CountWithout(out: seq<Message>, j: nat)
    requires j < |out|
    ensures LiveCount(Without(out, j)) == LiveCount(out) - (if Live(out[j]) then 1 else 0)
  {
    var n := |out| - 1;
    if j < n {
      CountWithout(out[..n], j);
      assert Without(out, j)[..n - 1] == Without(out[..n], j);
    } else {
      assert Without(out, j) == out[..n];
    }
  }

  lemma CountAppend(out: seq<Message>, m: Message)
    ensures LiveCount(out + [m]) == LiveCount(out) + (if Live(m) then 1 else 0)
  {
    assert (out + [m])[..|out|] == out;
  }

  lemma {:induction false} CountBelow(out: seq<Message>, b: nat)
    requires forall i | b <= i < |out| :: !Live(out[i])
    ensures LiveCount(out) <= Min(b, |out|)
  {
    if out != [] { CountBelow(out[..|out| - 1], b); }
  }

  lemma {:induction false} CountAll(out: seq<Message>)
    requires forall i | 0 <= i < |out| :: Live(out[i])
    ensures LiveCount(out) == |out|
  {
    if out != [] { CountAll(out[..|out| - 1]); }
  }

  lemma {:induction false} CountSame(a: seq<Message>, b: seq<Message>)
    requires |a| == |b| && forall i | 0 <= i < |a| :: Live(a[i]) == Live(b[i])
    ensures LiveCount(a) == LiveCount(b)
  {
    if a != [] { CountSame(a[..|a| - 1], b[..|b| - 1]); }
  }

  // ---------------------------------------------------------------- the invariant

  /**
   As Conforming, but CONNACK may set any maximum, as long as what was sent on this connection and
   is not yet acknowledged stays below it.
   */
  predicate ConformingChange(s: Session, e: Event) {
    if e.Connack? then e.maximum == s.maximum || AwaitedBelow(s, e.maximum) else Conforming(s, e)
  }

  predicate ConformingChanges(s: Session, es: seq<Event>)
    decreases |es|
  {
    es == [] || (ConformingChange(s, es[0]) && ConformingChanges(Step(s, es[0]), es[1..]))
  }

  predicate AwaitedBelow(s: Session, b: nat) {
    forall i | b <= i < |s.out| :: forall a | a in s.awaiting :: !Answers(a, s.out[i])
  }

  ghost predicate CountedLive(s: Session) {
    s.phase.Counted? ==>
      && var j := Find(s.out, s.phase.mid);
      && j < |s.out| && s.out[j].qos == s.phase.qos && Live(s.out[j])
      && (s.state != Down ==> forall a | a in s.awaiting :: a.mid != s.phase.mid)
  }

  ghost predicate Budget(s: Session) {
    match s.state
    case Down => true
    case Connecting =>
      (s.quota == 0 || s.quota + |s.out| <= s.maximum) && AwaitedBelow(s, s.maximum)
    case _ => s.quota + LiveCount(s.out) <= s.maximum + Debt(s.phase)
  }

  ghost predicate WInv(s: Session) {
    && Listed(s)
    && s.quota <= s.maximum
    && (s.state == Connecting || s.state == Accepted ==> s.phase == Idle)
    && CountedLive(s)
    && AwaitingKnown(s)
    && Budget(s)
  }

  // ---------------------------------------------------------------- release

  lemma ReleaseOneCounted(s: Session, i: nat)
    requires Listed(s) && CountedLive(s) && i < |s.out| && !Live(s.out[i])
    ensures CountedLive(s.(out := s.out[i := InFlight(s.out[i])], state := Down))
    ensures
      var s1 := s.(out := s.out[i := InFlight(s.out[i])]);
      CountedLive(Send(s1, PublishOf(InFlight(s.out[i]))).(quota := s.quota))
  {
    var t := s.(out := s.out[i := InFlight(s.out[i])]);
    if s.phase.Counted? {
      FindSame(s.out, t.out, s.phase.mid);
      assert s.out[Find(s.out, s.phase.mid)].mid != s.out[i].mid;
    }
  }

  lemma {:induction false} ReleaseKnown(s: Session, i: nat)
    requires i <= |s.out| && Listed(s) && CountedLive(s) && AwaitingKnown(s)
    ensures
      var t := ReleaseFrom(s, i);
      Listed(t) && CountedLive(t) && AwaitingKnown(t)
    decreases |s.out| - i
  {
    if i == |s.out| || s.quota == 0 {
    } else if s.out[i].state != Invalid {
      ReleaseKnown(s, i + 1);
    } else {
      var m := InFlight(s.out[i]);
      var s1 := s.(out := s.out[i := m]);
      var t := Send(s1, PublishOf(m));
      ReleaseOneCounted(s, i);
      ReleaseOneAwaiting(s, i);
      InFlightSame(s.out, i);
      SameListed(s, t);
      if CanSend(s1) {
        ReleaseKnown(t.(quota := s.quota - 1), i + 1);
      }
    }
  }

  /**
   The release loop moves quota into live messages one for one, unless a send fails; it stops
   with no quota or with nothing waiting behind its starting point.
   */
  lemma {:induction false} ReleaseMoves(s: Session, i: nat)
    requires i <= |s.out|
    ensures Moved(s, ReleaseFrom(s, i), i)
    decreases |s.out| - i
  {
    if i == |s.out| || s.quota == 0 {
    } else if s.out[i].state != Invalid {
      ReleaseMoves(s, i + 1);
      MovedPast(s, s, ReleaseFrom(s, i), i);
    } else if CanSend(s) {
      var r := SentAt(s, i);
      SentTurn(s, i);
      ReleaseMoves(r, i + 1);
      MovedPast(s, r, ReleaseFrom(s, i), i);
    } else {
      StoppedTurn(s, i);
    }
  }

  predicate LiveFrom(out: seq<Message>, i: nat) { forall l | i <= l < |out| :: Live(out[l]) }

  /** What the loop has done when it ends, having started at i. */
  predicate Moved(s: Session, t: Session, i: nat) {
    && i <= |t.out| == |s.out| && t.maximum == s.maximum && t.phase == s.phase
    && t.quota <= s.quota
    && (t.state == s.state || t.state == Down)
    && (t.state != Down ==>
          && t.quota + LiveCount(t.out) == s.quota + LiveCount(s.out)
          && (t.quota == 0 || LiveFrom(t.out, i)))
    && t.out[..i] == s.out[..i]
  }

  /** What one turn has done when it goes on to i + 1. */
  predicate Turned(s: Session, r: Session, i: nat) {
    && i < |s.out| == |r.out| && r.out[..i] == s.out[..i] && Live(r.out[i])
    && r.maximum == s.maximum && r.phase == s.phase && r.state == s.state && r.quota <= s.quota
    && r.quota + LiveCount(r.out) == s.quota + LiveCount(s.out)
  }

  function SentAt(s: Session, i: nat): Session
    requires i < |s.out| && s.quota > 0
  {
    var m := InFlight(s.out[i]);
    Send(s.(out := s.out[i := m]), PublishOf(m)).(quota := s.quota - 1)
  }

  lemma SentTurn(s: Session, i: nat)
    requires i < |s.out| && s.quota > 0 && !Live(s.out[i]) && CanSend(s)
    ensures Turned(s, SentAt(s, i), i) && ReleaseFrom(s, i) == ReleaseFrom(SentAt(s, i), i + 1)
  {
    CountUpdate(s.out, i, InFlight(s.out[i]));
  }

  lemma StoppedTurn(s: Session, i: nat)
    requires i < |s.out| && s.quota > 0 && !Live(s.out[i]) && !CanSend(s)
    ensures Moved(s, ReleaseFrom(s, i), i)
  {
    assert ReleaseFrom(s, i) == s.(out := s.out[i := InFlight(s.out[i])], state := Down);
  }

  /** One turn and the rest of the loop. */
  lemma MovedPast(s: Session, r: Session, t: Session, i: nat)
    requires Turned(s, r, i) && Moved(r, t, i + 1)
    ensures Moved(s, t, i)
  {
    assert t.out[i] == t.out[..i + 1][i] == r.out[i];
    assert t.out[..i] == t.out[..i + 1][..i] == r.out[..i];
  }

  lemma ReleaseBudget(s: Session)
    requires Listed(s) && s.quota <= s.maximum && CountedLive(s) && AwaitingKnown(s)
    requires s.state != Connecting
    requires s.state == Accepted ==> s.phase == Idle
    requires s.state != Down ==> s.quota + LiveCount(s.out) <= s.maximum + Debt(s.phase)
    ensures WInv(Release(s))
  {
    ReleaseMoves(s, 0);
    ReleaseKnown(s, 0);
  }

  lemma QueuedKnown(s: Session, mid: Mid, qos: Qos)
    requires WInv(s) && FreshMid(s.out, mid)
    ensures
      var q := Queued(s, mid, qos);
      Listed(q) && CountedLive(q) && AwaitingKnown(q) && LiveCount(q.out) == LiveCount(s.out)
  {
    CountAppend(s.out, Queued(s, mid, qos).out[|s.out|]);
    QueuedAwaiting(s, mid, qos);
    QueuedListed(s, mid, qos);
    QueuedLive(s, mid, qos);
  }

  lemma QueuedLive(s: Session, mid: Mid, qos: Qos)
    requires CountedLive(s) && Listed(Queued(s, mid, qos))
    ensures CountedLive(Queued(s, mid, qos))
  {
    var q := Queued(s, mid, qos);
    if s.phase.Counted? { FindAt(q.out, s.phase.mid, Find(s.out, s.phase.mid)); }
  }

  /** Between CONNECT and CONNACK, with no quota: the message only waits. */
  lemma PublishWaits(s: Session, mid: Mid, qos: Qos)
    requires WInv(s) && FreshMid(s.out, mid) && s.state == Connecting && s.quota == 0
    ensures WInv(Publishing(s, mid, qos))
  {
    QueuedKnown(s, mid, qos);
    QueuedBelow(s, mid, qos);
    assert Publishing(s, mid, qos) == Queued(s, mid, qos);
  }

  lemma QueuedBelow(s: Session, mid: Mid, qos: Qos)
    requires AwaitedBelow(s, s.maximum)
    ensures AwaitedBelow(Queued(s, mid, qos), s.maximum)
  {
    var q := Queued(s, mid, qos);
    forall i, a | s.maximum <= i < |q.out| && a in q.awaiting
      ensures !Answers(a, q.out[i])
    {
      if i < |s.out| { assert q.out[i] == s.out[i]; }
    }
  }

  /** And with quota: all of the list is within the maximum. */
  lemma PublishGoes(s: Session, mid: Mid, qos: Qos)
    requires WInv(s) && FreshMid(s.out, mid) && s.state == Connecting && s.quota > 0
    ensures WInv(Publishing(s, mid, qos))
  {
    QueuedKnown(s, mid, qos);
    var q := Queued(s, mid, qos);
    var t := Release(q);
    ReleaseKnown(q, 0);
    ReleaseMoves(q, 0);
    if t.state != Down && t.quota > 0 {
      CountAll(t.out);
      CountBelow(s.out, |s.out|);
    }
    assert |t.out| <= t.maximum;
  }

  lemma PublishBudget(s: Session, mid: Mid, qos: Qos)
    requires WInv(s) && FreshMid(s.out, mid)
    ensures WInv(Publishing(s, mid, qos))
  {
    if s.state != Connecting {
      QueuedKnown(s, mid, qos);
      ReleaseBudget(Queued(s, mid, qos));
    } else if s.quota == 0 {
      PublishWaits(s, mid, qos);
    } else {
      PublishGoes(s, mid, qos);
    }
  }

  // ---------------------------------------------------------------- other steps

  lemma ReconnectBudget(s: Session, life: nat)
    requires WInv(s) && s.phase == Idle
    ensures WInv(Reconnecting(s, life))
  {
    assert SameList(s.out, Reconnecting(s, life).out);
  }

  lemma ConnackKnown(s: Session, maximum: nat)
    requires AwaitingKnown(s) && s.state == Connecting
    requires AwaitedBelow(s, maximum)
    ensures AwaitingKnown(TakeConnack(s, maximum))
  {
    var t := TakeConnack(s, maximum);
    forall a | a in t.awaiting
      ensures Known(t, a)
    {
      assert Known(s, a);
      var j :| 0 <= j < |s.out| && Answers(a, s.out[j]) && JustSent(s.out[j]);
      assert t.out[j] == s.out[j];
    }
  }

  lemma ConnackListed(s: Session, maximum: nat)
    requires Listed(s) && s.state == Connecting
    ensures Listed(TakeConnack(s, maximum))
  {
    SameListed(s, TakeConnack(s, maximum));
  }

  lemma ConnackCount(s: Session, maximum: nat)
    requires s.state == Connecting
    ensures LiveCount(TakeConnack(s, maximum).out) <= Min(maximum, |s.out|)
  {
    CountBelow(TakeConnack(s, maximum).out, maximum);
  }

  lemma ConnackBudget(s: Session, maximum: nat)
    requires WInv(s) && s.phase == Idle && s.state == Connecting
    requires maximum == s.maximum || AwaitedBelow(s, maximum)
    ensures WInv(TakeConnack(s, maximum))
  {
    ConnackKnown(s, maximum);
    ConnackListed(s, maximum);
    ConnackCount(s, maximum);
  }

  lemma RetriedBudget(s: Session, t: Session)
    requires WInv(s) && s.phase == Idle && s.state in {Active, Down} && Retried(s, t) && AwaitingKnown(t)
    ensures WInv(t)
  {
    RetriedListed(s, t);
    assert forall i | 0 <= i < |t.out| :: t.out[i] == s.out[i].(dup := t.out[i].dup);
    CountSame(s.out, t.out);
  }

  lemma RetryOneBudget(s: Session, i: nat)
    requires WInv(s) && i < |s.out| && s.phase == Idle && RetryNew(s, i) && s.state in {Active, Down}
    ensures WInv(Retry(s, i)) && RetryNew(Retry(s, i), i + 1)
    ensures Retry(s, i).phase == Idle && Retry(s, i).state in {Active, Down}
    ensures |Retry(s, i).out| == |s.out|
  {
    RetryOne(s, i);
    RetryOneAwaiting(s, i);
    RetriedBudget(s, Retry(s, i));
  }

  lemma {:induction false} RetryBudget(s: Session, i: nat)
    requires WInv(s) && i <= |s.out| && s.phase == Idle && RetryNew(s, i) && s.state in {Active, Down}
    ensures WInv(RetryFrom(s, i))
    decreases |s.out| - i
  {
    if i < |s.out| {
      RetryOneBudget(s, i);
      RetryBudget(Retry(s, i), i + 1);
    }
  }

  lemma {:induction false} LiveCounted(out: seq<Message>, j: nat)
    requires j < |out| && Live(out[j])
    ensures LiveCount(out) >= 1
  {
    if j < |out| - 1 { LiveCounted(out[..|out| - 1], j); }
  }

  lemma CountedBudget(s: Session, t: Session)
    requires WInv(s) && s.phase == Idle && s.state == Active && s.quota < s.maximum
    requires t.phase.Counted? && t.out == s.out && t.quota == s.quota + 1 && t.maximum == s.maximum && t.state == s.state
    requires t.accepted == s.accepted && AwaitingKnown(t) && CountedLive(t)
    ensures WInv(t)
  {
  }

  lemma CountBudget(s: Session, mid: Mid, qos: Qos)
    requires WInv(s) && s.phase == Idle && s.state == Active && AckFor(mid, qos) in s.awaiting
    ensures WInv(CountAck(s, mid, qos))
  {
    var j := AnswerPosition(s, AckFor(mid, qos));
    TakenAwaiting(s, AckFor(mid, qos));
    LiveCounted(s.out, j);
    CountedBudget(s, CountAck(s, mid, qos));
  }

  lemma RemoveBudget(s: Session)
    requires WInv(s) && s.phase.Counted?
    ensures WInv(RemoveAcked(s))
  {
    var j := Find(s.out, s.phase.mid);
    DropListed(s, j);
    DropAwaiting(s, j);
    CountWithout(s.out, j);
  }

  lemma PubrecTakenBudget(s: Session, t: Session, j: nat)
    requires WInv(s) && s.phase == Idle && s.state == Active && PubrecTaken(s, t, j) && AwaitingKnown(t)
    requires s.out[j].qos == 2 && Live(s.out[j])
    ensures WInv(t)
  {
    PubrecTakenListed(s, t, j);
    CountUpdate(s.out, j, s.out[j].(state := WaitForPubcomp));
  }

  lemma AcceptPubrecBudget(s: Session, mid: Mid)
    requires WInv(s) && s.phase == Idle && s.state == Active && Pubrec(mid) in s.awaiting
    ensures WInv(AcceptPubrec(s, mid))
  {
    var j := AnswerPosition(s, Pubrec(mid));
    assert OwnState(s.out[j]);
    AcceptPubrecAwaiting(s, mid, j);
    AcceptPubrecTakes(s, mid, j);
    PubrecTakenBudget(s, AcceptPubrec(s, mid), j);
  }

  lemma FailedBudget(s: Session, mid: Mid, j: nat)
    requires WInv(s) && s.phase == Idle && s.state == Active && Pubrec(mid) in s.awaiting
    requires j == Find(s.out, mid) && j < |s.out| && Answers(Pubrec(mid), s.out[j])
    ensures Budget(Failed(s, mid, j)) && CountedLive(Failed(s, mid, j))
  {
    CountWithout(s.out, j);
  }

  lemma FailPubrecBudget(s: Session, mid: Mid)
    requires WInv(s) && s.phase == Idle && s.state == Active && Pubrec(mid) in s.awaiting
    ensures WInv(FailPubrec(s, mid))
  {
    var j := AnswerPosition(s, Pubrec(mid));
    FailedAwaiting(s, mid, j);
    FailedBudget(s, mid, j);
    assert OwnState(s.out[j]);
    FailPubrecIsFailed(s, mid, j);
  }

  // ---------------------------------------------------------------- runs

  lemma LoseBudget(s: Session)
    requires WInv(s)
    ensures WInv(s.(state := Down)) && WInv(RaiseQuota(s).(state := Down))
  {
  }

  lemma ActivateBudget(s: Session)
    requires WInv(s) && s.phase == Idle
    ensures WInv(Activating(s))
  {
    if s.state == Accepted {
      AcceptedRetryNew(s);
      RetryBudget(s.(state := Active), 0);
    } else if s.state == Down {
      RetryBudget(s, 0);
    }
  }

  lemma AckReleaseBudget(s: Session)
    requires WInv(s) && s.phase == Removed
    ensures WInv(Release(s.(phase := Idle)))
  {
    var r := s.(phase := Idle);
    assert AwaitingKnown(r) by { QuietKnown(s, r); }
    ReleaseBudget(r);
  }

  lemma FailReleaseBudget(s: Session)
    requires WInv(s) && s.phase == FailRemoved
    ensures WInv(Release(RaiseQuota(s).(phase := Idle)))
  {
    var r := RaiseQuota(s).(phase := Idle);
    assert AwaitingKnown(r) by { QuietKnown(s, r); }
    ReleaseBudget(r);
  }

  lemma {:induction false} StepBudget(s: Session, e: Event)
    requires WInv(s) && ConformingChange(s, e)
    ensures WInv(Step(s, e))
  {
    if Enabled(s, e) {
      match e
      case Publish(mid, qos) => PublishBudget(s, mid, qos);
      case Lose => LoseBudget(s);
      case Reconnect(life) => ReconnectBudget(s, life);
      case Connack(maximum) => if s.state == Connecting { ConnackBudget(s, maximum); } else { LoseBudget(s); }
      case Activate => ActivateBudget(s);
      case AckCount(mid, qos) => if s.state == Active { CountBudget(s, mid, qos); } else { LoseBudget(s); }
      case AckRemove => RemoveBudget(s);
      case AckRelease => AckReleaseBudget(s);
      case AckMalformed => LoseBudget(s);
      case PubrecOk(mid) => if s.state == Active { AcceptPubrecBudget(s, mid); } else { LoseBudget(s); }
      case PubrecFail(mid) => if s.state == Active { FailPubrecBudget(s, mid); } else { LoseBudget(s); }
      case PubrecFailRelease => FailReleaseBudget(s);
    }
  }

  lemma {:induction false} RunBudget(s: Session, es: seq<Event>)
    requires WInv(s) && ConformingChanges(s, es)
    ensures WInv(Run(s, es))
    decreases |es|
  {
    if es != [] {
      StepBudget(s, es[0]);
      RunBudget(Step(s, es[0]), es[1..]);
    }
  }

  /** In an established session, between handlers, quota and live messages stay within the maximum. */
  predicate Bounded(s: Session) {
    s.state in {Accepted, Active} && s.phase == Idle ==> s.quota + LiveCount(s.out) <= s.maximum
  }

  /** The bound, over every run with a conforming broker and changing maxima. */
  lemma QuotaNeverExceedsMaximum(maximum: nat, es: seq<Event>)
    requires ConformingChanges(Fresh(maximum), es)
    ensures Bounded(Run(Fresh(maximum), es))
  {
    RunBudget(Fresh(maximum), es);
  }
}
