/**
 With a conforming broker and changing maxima, every message in flight sits below the maximum in
 force while the session is up.
 */
module SessionWindow {
  import opened Basics
  import opened Session
  import opened SessionAccounts
  import opened SessionQuota
  import opened SessionAwaiting
  import opened SessionBound

  ghost predicate LiveBelow(s: Session) {
    s.state != Down ==> forall i | 0 <= i < |s.out| && Live(s.out[i]) :: i < Bound(s)
  }

  predicate LiveUpto(out: seq<Message>, i: nat) { i <= |out| && forall l | 0 <= l < i :: Live(out[l]) }

  lemma {:induction false} CountUpto(out: seq<Message>, i: nat)
    requires LiveUpto(out, i)
    ensures LiveCount(out) >= i
  {
    if out != [] { CountUpto(out[..|out| - 1], if i < |out| then i else i - 1); }
  }

  /** The release loop goes in list order, so what it sends is within quota plus live messages. */
  lemma {:induction false} ReleaseBelow(s: Session, i: nat)
    requires LiveUpto(s.out, i) && LiveBelow(s)
    requires s.quota == 0 || s.quota + LiveCount(s.out) <= Bound(s)
    ensures LiveBelow(ReleaseFrom(s, i))
    decreases |s.out| - i
  {
    if i == |s.out| || s.quota == 0 {
    } else if Live(s.out[i]) {
      ReleaseBelow(s, i + 1);
    } else if CanSend(s) {
      CountUpto(s.out, i);
      SentTurn(s, i);
      SentBelow(s, SentAt(s, i), i);
      ReleaseBelow(SentAt(s, i), i + 1);
    }
  }

  lemma SentBelow(s: Session, r: Session, i: nat)
    requires LiveUpto(s.out, i) && LiveBelow(s) && i < |s.out| && i < Bound(s) && s.state != Down
    requires r.out == s.out[i := InFlight(s.out[i])] && r.state == s.state && r.maximum == s.maximum && r.phase == s.phase
    ensures LiveBelow(r) && LiveUpto(r.out, i + 1)
  {
  }

  lemma PublishBelow(s: Session, mid: Mid, qos: Qos)
    requires WInv(s) && LiveBelow(s)
    ensures LiveBelow(Publishing(s, mid, qos))
  {
    var q := Queued(s, mid, qos);
    CountAppend(s.out, q.out[|s.out|]);
    CountBelow(s.out, |s.out|);
    if s.state != Down {
      assert LiveBelow(q);
      ReleaseBelow(q, 0);
    } else {
      ReleaseMoves(q, 0);
    }
  }

  lemma WithoutBelow(s: Session, t: Session, j: nat)
    requires LiveBelow(s) && j < |s.out| && t.out == Without(s.out, j) && t.state == s.state && t.maximum == s.maximum
    requires if s.phase.Counted? then Live(s.out[j]) || s.state == Down else true
    ensures LiveBelow(t)
  {
    assert forall i | 0 <= i < |t.out| :: t.out[i] == s.out[if i < j then i else i + 1];
  }

  lemma RemoveBelow(s: Session)
    requires WInv(s) && LiveBelow(s) && s.phase.Counted?
    ensures LiveBelow(RemoveAcked(s))
  {
    WithoutBelow(s, RemoveAcked(s), Find(s.out, s.phase.mid));
  }

  lemma RetryBelow(s: Session)
    requires LiveBelow(s)
    ensures LiveBelow(RetryFrom(s, 0))
  {
    var t := RetryFrom(s, 0);
    RetryKeeps(s, 0);
    assert forall i | 0 <= i < |t.out| :: t.out[i] == s.out[i].(dup := t.out[i].dup);
  }

  lemma ActivateBelow(s: Session)
    requires LiveBelow(s)
    ensures LiveBelow(Activating(s))
  {
    if s.state == Accepted { RetryBelow(s.(state := Active)); } else { RetryBelow(s); }
  }

  lemma AcceptPubrecBelow(s: Session, mid: Mid)
    requires WInv(s) && LiveBelow(s) && s.state == Active && Pubrec(mid) in s.awaiting
    ensures LiveBelow(AcceptPubrec(s, mid))
  {
    var j := AnswerPosition(s, Pubrec(mid));
  }

  lemma FailPubrecBelow(s: Session, mid: Mid)
    requires LiveBelow(s) && s.phase == Idle && s.state == Active
    ensures LiveBelow(FailPubrec(s, mid))
  {
    var j := Find(s.out, mid);
    if j < |s.out| && s.out[j].qos == 2 { WithoutBelow(s, FailPubrec(s, mid), j); }
  }

  lemma AckReleaseBelow(s: Session)
    requires WInv(s) && LiveBelow(s) && s.phase == Removed
    ensures LiveBelow(Release(s.(phase := Idle)))
  {
    var r := s.(phase := Idle);
    if s.state != Down { ReleaseBelow(r, 0); } else { ReleaseMoves(r, 0); }
  }

  lemma FailReleaseBelow(s: Session)
    requires WInv(s) && LiveBelow(s) && s.phase == FailRemoved
    ensures LiveBelow(Release(RaiseQuota(s).(phase := Idle)))
  {
    var r := RaiseQuota(s).(phase := Idle);
    if s.state != Down { ReleaseBelow(r, 0); } else { ReleaseMoves(r, 0); }
  }

  lemma {:induction false} StepBelow(s: Session, e: Event)
    requires WInv(s) && LiveBelow(s) && ConformingChange(s, e)
    ensures LiveBelow(Step(s, e))
  {
    if Enabled(s, e) {
      match e
      case Publish(mid, qos) => PublishBelow(s, mid, qos);
      case Activate => ActivateBelow(s);
      case AckRemove => RemoveBelow(s);
      case AckRelease => AckReleaseBelow(s);
      case PubrecOk(mid) => if s.state == Active { AcceptPubrecBelow(s, mid); }
      case PubrecFail(mid) => if s.state == Active { FailPubrecBelow(s, mid); }
      case PubrecFailRelease => FailReleaseBelow(s);
      case _ =>
    }
  }

  lemma {:induction false} RunBelow(s: Session, es: seq<Event>)
    requires WInv(s) && LiveBelow(s) && ConformingChanges(s, es)
    ensures WInv(Run(s, es)) && LiveBelow(Run(s, es))
    decreases |es|
  {
    if es != [] {
      StepBelow(s, es[0]);
      StepBudget(s, es[0]);
      RunBelow(Step(s, es[0]), es[1..]);
    }
  }

  /** A message whose acknowledgement a conforming broker sends is in the window of the maximum in force. */
  lemma AnsweredWithin(maximum: nat, es: seq<Event>, a: Ack)
    requires ConformingChanges(Fresh(maximum), es)
    requires
      var s := Run(Fresh(maximum), es);
      s.state == Active && s.phase == Idle && a in s.awaiting
    ensures
      var s := Run(Fresh(maximum), es);
      var j := Find(s.out, a.mid);
      j < |s.out| && j < s.maximum && Answers(a, s.out[j]) && OwnState(s.out[j])
  {
    RunBelow(Fresh(maximum), es);
    var j := AnswerPosition(Run(Fresh(maximum), es), a);
  }
}
