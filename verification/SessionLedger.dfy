/**
 The exact account of the send quota when CONNACK may change the inflight maximum: beside quota and
 live messages, every acknowledgement still to come that no live message waits for counts one.
 */
module SessionLedger {
  import opened Basics
  import opened Session
  import opened SessionAccounts
  import opened SessionQuota
  import opened SessionAwaiting
  import opened SessionSteps
  import opened SessionBound

  /** Some message in flight is the one this acknowledgement is about. */
  predicate Met(out: seq<Message>, a: Ack) { exists j :: 0 <= j < |out| && Answers(a, out[j]) }

  /** With no inflight messages allowed, PUBACK and PUBCOMP give nothing back. */
  predicate Weighs(a: Ack, maximum: nat) { a.Pubrec? || maximum > 0 }

  ghost function Unmet(s: Session): set<Ack> {
    set a | a in s.awaiting && Weighs(a, s.maximum) && !Met(s.out, a)
  }

  /** The handler has raised the quota for a message that is still listed as live, and not sent again since. */
  ghost predicate Settling(s: Session) {
    && s.phase.Counted?
    && var j := Find(s.out, s.phase.mid);
    && j < |s.out| && s.out[j].qos == s.phase.qos && Live(s.out[j])
    && forall a | a in s.awaiting :: !Answers(a, s.out[j])
  }

  ghost function Owed(s: Session): int {
    if Settling(s) then 1 else if s.phase == FailRemoved then -1 else 0
  }

  ghost predicate Ledger(s: Session) {
    s.quota + LiveCount(s.out) + |Unmet(s)| <= s.maximum + Owed(s)
  }

  /** Before CONNACK: what is outstanding was sent on this connection. */
  ghost predicate Early(s: Session) { forall a | a in s.awaiting :: SentFor(s.out, a) }

  ghost predicate SentFor(out: seq<Message>, a: Ack) {
    exists j :: 0 <= j < |out| && Answers(a, out[j]) && JustSent(out[j])
  }

  ghost predicate Balanced(s: Session) {
    match s.state
    case Down => true
    case Connecting =>
      (s.quota == 0 || s.quota + |s.out| <= s.maximum) && Early(s) && AwaitedBelow(s, s.maximum)
    case _ => Ledger(s)
  }

  ghost predicate LInv(s: Session) {
    && Listed(s) && s.quota <= s.maximum
    && (s.state == Connecting || s.state == Accepted ==> s.phase == Idle)
    && Balanced(s)
  }

  // ---------------------------------------------------------------- sets

  lemma Fewer(a: set<Ack>, b: set<Ack>)
    requires a <= b
    ensures |a| <= |b|
  {
    assert b == a + (b - a);
  }

  lemma OneFewer(a: set<Ack>, b: set<Ack>, x: Ack)
    requires a <= b - {x} && x in b
    ensures |a| < |b|
  {
    Fewer(a, b - {x});
  }

  lemma OneMore(a: set<Ack>, b: set<Ack>, x: Ack)
    requires a <= b + {x}
    ensures |a| <= |b| + 1
  {
    Fewer(a, b + {x});
  }

  // ---------------------------------------------------------------- release

  /** What answers in a answers in b too. */
  ghost predicate Keeps(a: seq<Message>, b: seq<Message>) {
    forall x | Met(a, x) :: Met(b, x)
  }

  lemma UpdateKeeps(out: seq<Message>, i: nat, m: Message)
    requires i < |out| && (!Live(out[i]) || m == out[i].(dup := m.dup))
    ensures Keeps(out, out[i := m])
  {
    var upd := out[i := m];
    forall x | Met(out, x)
      ensures Met(upd, x)
    {
      var j :| 0 <= j < |out| && Answers(x, out[j]);
      assert Answers(x, upd[j]);
    }
  }

  /** A send on behalf of message i that answers for itself. */
  lemma SentUnmet(s: Session, t: Session, i: nat, sent: set<Ack>)
    requires Keeps(s.out, t.out) && t.awaiting == s.awaiting + sent && t.maximum == s.maximum
    requires i < |t.out| && forall x | x in sent :: Answers(x, t.out[i])
    ensures |Unmet(t)| <= |Unmet(s)|
  {
    forall x | x in Unmet(t)
      ensures x in Unmet(s)
    {
      if x in sent { assert Met(t.out, x); }
    }
    Fewer(Unmet(t), Unmet(s));
  }

  lemma SentSettling(s: Session, r: Session, i: nat)
    requires DistinctMids(s.out) && i < |s.out| && !Live(s.out[i]) && r.out == s.out[i := InFlight(s.out[i])]
    requires r.phase == s.phase && r.awaiting == s.awaiting + AckOf(PublishOf(InFlight(s.out[i])))
    ensures Owed(s) <= Owed(r)
  {
    if Settling(s) {
      InFlightSame(s.out, i);
      FindSame(s.out, r.out, s.phase.mid);
      var j := Find(s.out, s.phase.mid);
      assert s.out[j].mid != s.out[i].mid && r.out[j] == s.out[j];
    }
  }

  lemma SentLedger(s: Session, i: nat)
    requires DistinctMids(s.out) && i < |s.out| && s.quota > 0 && !Live(s.out[i]) && CanSend(s) && Ledger(s)
    ensures Ledger(SentAt(s, i))
  {
    var m := InFlight(s.out[i]);
    var r := SentAt(s, i);
    SentTurn(s, i);
    UpdateKeeps(s.out, i, m);
    SentUnmet(s, r, i, AckOf(PublishOf(m)));
    SentSettling(s, r, i);
  }

  lemma SentDistinct(s: Session, i: nat)
    requires DistinctMids(s.out) && i < |s.out| && s.quota > 0
    ensures DistinctMids(SentAt(s, i).out)
  {
  }

  ghost predicate LedgerUp(s: Session) { s.state != Down ==> Ledger(s) }

  lemma {:induction false} ReleaseLedger(s: Session, i: nat)
    requires i <= |s.out| && DistinctMids(s.out) && LedgerUp(s)
    ensures LedgerUp(ReleaseFrom(s, i))
    decreases |s.out| - i
  {
    if i < |s.out| && s.quota > 0 {
      if Live(s.out[i]) {
        ReleaseLedger(s, i + 1);
      } else if CanSend(s) {
        SentLedger(s, i);
        SentDistinct(s, i);
        ReleaseLedger(SentAt(s, i), i + 1);
      }
    }
  }

  lemma ReleaseListed(s: Session)
    requires Listed(s)
    ensures Listed(Release(s))
  {
    ReleaseKeeps(s, 0);
    SameListed(s, Release(s));
  }

  /** The release loop, in an established session or when it is down. */
  lemma ReleaseBalances(s: Session)
    requires Listed(s) && s.quota <= s.maximum && s.state != Connecting
    requires s.state == Accepted ==> s.phase == Idle
    requires s.state != Down ==> Ledger(s)
    ensures LInv(Release(s))
  {
    ReleaseMoves(s, 0);
    ReleaseListed(s);
    ReleaseLedger(s, 0);
  }

  // ---------------------------------------------------------------- publish

  lemma QueuedUnmet(s: Session, mid: Mid, qos: Qos)
    ensures
      var q := Queued(s, mid, qos);
      |Unmet(q)| <= |Unmet(s)| && Owed(s) <= Owed(q) && LiveCount(q.out) == LiveCount(s.out)
  {
    var q := Queued(s, mid, qos);
    CountAppend(s.out, q.out[|s.out|]);
    forall x | Met(s.out, x)
      ensures Met(q.out, x)
    {
      var j :| 0 <= j < |s.out| && Answers(x, s.out[j]);
      assert Answers(x, q.out[j]);
    }
    Fewer(Unmet(q), Unmet(s));
    if Settling(s) {
      var j := Find(s.out, s.phase.mid);
      assert q.out[j] == s.out[j] && forall i | 0 <= i < j :: q.out[i] == s.out[i];
      assert Find(q.out, s.phase.mid) == j;
    }
  }

  lemma {:induction false} ReleaseEarly(s: Session, i: nat)
    requires i <= |s.out| && Early(s)
    ensures
      var t := ReleaseFrom(s, i);
      t.state != Down ==> Early(t)
    decreases |s.out| - i
  {
    if i < |s.out| && s.quota > 0 {
      if Live(s.out[i]) {
        ReleaseEarly(s, i + 1);
      } else if CanSend(s) {
        SentEarly(s, i);
        ReleaseEarly(SentAt(s, i), i + 1);
      }
    }
  }

  lemma SentEarly(s: Session, i: nat)
    requires i < |s.out| && s.quota > 0 && !Live(s.out[i]) && CanSend(s) && Early(s)
    ensures Early(SentAt(s, i))
  {
    var r := SentAt(s, i);
    forall a | a in r.awaiting
      ensures SentFor(r.out, a)
    {
      if a in s.awaiting {
        assert SentFor(s.out, a);
        var j :| 0 <= j < |s.out| && Answers(a, s.out[j]) && JustSent(s.out[j]);
        assert r.out[j] == s.out[j];
      } else {
        assert Answers(a, r.out[i]);
      }
    }
  }

  lemma QueuedEarly(s: Session, mid: Mid, qos: Qos)
    requires Early(s)
    ensures Early(Queued(s, mid, qos))
  {
    var q := Queued(s, mid, qos);
    forall a | a in s.awaiting
      ensures SentFor(q.out, a)
    {
      assert SentFor(s.out, a);
      var j :| 0 <= j < |s.out| && Answers(a, s.out[j]) && JustSent(s.out[j]);
      assert q.out[j] == s.out[j];
    }
  }

  /** Between CONNECT and CONNACK. */
  lemma PublishEarly(s: Session, mid: Mid, qos: Qos)
    requires LInv(s) && FreshMid(s.out, mid) && s.state == Connecting
    ensures Balanced(Publishing(s, mid, qos))
  {
    var q := Queued(s, mid, qos);
    var t := Release(q);
    QueuedEarly(s, mid, qos);
    QueuedBelow(s, mid, qos);
    QueuedUnmet(s, mid, qos);
    if s.quota > 0 {
      ReleaseEarly(q, 0);
      ReleaseMoves(q, 0);
      if t.state != Down && t.quota > 0 {
        CountAll(t.out);
        CountBelow(s.out, |s.out|);
      }
      assert |t.out| <= t.maximum;
    }
  }

  lemma PublishBalances(s: Session, mid: Mid, qos: Qos)
    requires LInv(s) && FreshMid(s.out, mid)
    ensures LInv(Publishing(s, mid, qos))
  {
    var q := Queued(s, mid, qos);
    QueuedListed(s, mid, qos);
    if s.state == Connecting {
      PublishEarly(s, mid, qos);
      ReleaseListed(q);
      ReleaseMoves(q, 0);
    } else {
      QueuedUnmet(s, mid, qos);
      ReleaseBalances(q);
    }
  }

  // ---------------------------------------------------------------- CONNACK and retry

  /** Messages below the new maximum that are not in flight. */
  function Free(out: seq<Message>, maximum: nat): nat {
    var n := Min(maximum, |out|);
    CountBelow(out[..n], n);
    n - LiveCount(out[..n])
  }

  /** Acknowledgements to come for messages that a new maximum takes out of the window. */
  ghost function LateAcks(s: Session, maximum: nat): set<Ack> {
    set a | a in s.awaiting && Weighs(a, maximum) && exists i :: maximum <= i < |s.out| && Answers(a, s.out[i])
  }

  lemma {:induction false} CountCut(out: seq<Message>, k: nat)
    requires k <= |out| && forall i | k <= i < |out| :: !Live(out[i])
    ensures LiveCount(out) == LiveCount(out[..k])
  {
    if k == |out| {
      assert out[..k] == out;
    } else {
      CountCut(out[..|out| - 1], k);
      assert out[..|out| - 1][..k] == out[..k];
    }
  }

  /** After CONNACK the live messages are those that were live below the new maximum. */
  lemma ConnackLive(s: Session, maximum: nat)
    requires s.state == Connecting
    ensures
      var t := TakeConnack(s, maximum);
      LiveCount(t.out) == Min(maximum, |s.out|) - Free(s.out, maximum) && t.out[..Min(maximum, |s.out|)] == s.out[..Min(maximum, |s.out|)]
  {
    var t, n := TakeConnack(s, maximum), Min(maximum, |s.out|);
    assert t.out[..n] == s.out[..n];
    CountCut(t.out, n);
  }

  lemma ConnackUnmet(s: Session, maximum: nat)
    requires s.state == Connecting && Early(s)
    ensures Unmet(TakeConnack(s, maximum)) <= LateAcks(s, maximum)
  {
    var t := TakeConnack(s, maximum);
    forall a | a in s.awaiting && Weighs(a, maximum)
      ensures Met(t.out, a) || a in LateAcks(s, maximum)
    {
      assert SentFor(s.out, a);
      var j :| 0 <= j < |s.out| && Answers(a, s.out[j]) && JustSent(s.out[j]);
      if j < maximum { assert t.out[j] == s.out[j]; }
    }
  }

  /** The condition on a CONNACK, counted. */
  ghost predicate CountedBelow(s: Session, maximum: nat) { |LateAcks(s, maximum)| <= Free(s.out, maximum) }

  lemma ConnackBalances(s: Session, maximum: nat)
    requires LInv(s) && s.phase == Idle && s.state == Connecting && CountedBelow(s, maximum)
    ensures LInv(TakeConnack(s, maximum))
  {
    ConnackListed(s, maximum);
    ConnackLive(s, maximum);
    ConnackUnmet(s, maximum);
    Fewer(Unmet(TakeConnack(s, maximum)), LateAcks(s, maximum));
  }

  /** Nothing outstanding at or beyond the new maximum: the condition is met, whatever is in flight. */
  lemma AwaitedIsCounted(s: Session, maximum: nat)
    requires AwaitedBelow(s, maximum)
    ensures CountedBelow(s, maximum)
  {
    assert LateAcks(s, maximum) == {};
  }

  lemma RetryOneLedger(s: Session, i: nat)
    requires Listed(s) && i < |s.out| && s.phase == Idle && s.state == Active && Ledger(s)
    ensures Retry(s, i).state == Active ==> Ledger(Retry(s, i))
  {
    var t := Retry(s, i);
    RetryOne(s, i);
    assert forall l | 0 <= l < |t.out| :: t.out[l] == s.out[l].(dup := t.out[l].dup);
    CountSame(s.out, t.out);
    assert OwnState(s.out[i]);
    if t.state == Active {
      UpdateKeeps(s.out, i, s.out[i].(dup := true));
      var w := RetryPacket(s.out[i].(dup := true));
      SentUnmet(s, t, i, if w.Some? then AckOf(w.value) else {});
    }
  }

  lemma {:induction false} RetryLedger(s: Session, i: nat)
    requires Listed(s) && i <= |s.out| && s.phase == Idle && s.state in {Active, Down} && (s.state == Active ==> Ledger(s))
    ensures RetryFrom(s, i).state == Active ==> Ledger(RetryFrom(s, i))
    decreases |s.out| - i
  {
    if i < |s.out| {
      RetryOne(s, i);
      RetriedListed(s, Retry(s, i));
      if s.state == Active { RetryOneLedger(s, i); }
      RetryLedger(Retry(s, i), i + 1);
    }
  }

  lemma RetryBalances(s: Session)
    requires LInv(s) && s.phase == Idle && s.state in {Active, Down}
    ensures LInv(RetryFrom(s, 0))
  {
    RetryKeeps(s, 0);
    RetriedListed(s, RetryFrom(s, 0));
    RetryLedger(s, 0);
  }

  lemma ActivateBalances(s: Session)
    requires LInv(s) && s.phase == Idle
    ensures LInv(Activating(s))
  {
    if s.state == Accepted {
      var a := s.(state := Active);
      assert Unmet(a) == Unmet(s);
      RetryBalances(a);
    } else if s.state == Down {
      RetryBalances(s);
    }
  }

  // ---------------------------------------------------------------- acknowledgements

  /** Only one acknowledgement can be about a message in its state, and only one message about it. */
  lemma OneAnswer(s: Session, a: Ack, j: nat)
    requires Listed(s) && j < |s.out| && Answers(a, s.out[j])
    ensures j == Find(s.out, a.mid) && forall b | Answers(b, s.out[j]) :: b == a
  {
    FindAt(s.out, a.mid, j);
  }

  /** An acknowledgement that has come is off the account, if it was on it. */
  lemma AckOff(s: Session, r: Session, a: Ack)
    requires a in s.awaiting && r.out == s.out && r.awaiting == s.awaiting - {a} && r.maximum == s.maximum
    ensures |Unmet(r)| <= |Unmet(s)|
    ensures !Met(s.out, a) && Weighs(a, s.maximum) ==> |Unmet(r)| < |Unmet(s)|
  {
    Fewer(Unmet(r), Unmet(s));
    if !Met(s.out, a) && Weighs(a, s.maximum) { OneFewer(Unmet(r), Unmet(s), a); }
  }

  /** The message it is about, if any. */
  lemma MetBy(s: Session, a: Ack) returns (j: nat)
    requires Listed(s) && Met(s.out, a)
    ensures j < |s.out| && j == Find(s.out, a.mid) && Answers(a, s.out[j]) && OwnState(s.out[j])
    ensures forall b | Answers(b, s.out[j]) :: b == a
  {
    j :| 0 <= j < |s.out| && Answers(a, s.out[j]);
    OneAnswer(s, a, j);
  }

  lemma CountSettles(s: Session, t: Session, mid: Mid, qos: Qos)
    requires Listed(s) && Met(s.out, AckFor(mid, qos))
    requires t.out == s.out && t.phase == Counted(mid, qos) && t.awaiting == s.awaiting - {AckFor(mid, qos)}
    ensures Settling(t)
  {
    var j := MetBy(s, AckFor(mid, qos));
  }

  lemma CountBalances(s: Session, mid: Mid, qos: Qos)
    requires LInv(s) && s.phase == Idle && s.state == Active && AckFor(mid, qos) in s.awaiting
    ensures LInv(CountAck(s, mid, qos))
  {
    var t := CountAck(s, mid, qos);
    AckOff(s, t, AckFor(mid, qos));
    if Met(s.out, AckFor(mid, qos)) { CountSettles(s, t, mid, qos); }
  }

  /** Without message j: only an acknowledgement about it loses its message. */
  lemma WithoutUnmet(s: Session, t: Session, j: nat)
    requires Listed(s) && j < |s.out| && t.out == Without(s.out, j) && t.awaiting <= s.awaiting && t.maximum == s.maximum
    ensures forall x | x in Unmet(t) && x !in Unmet(s) :: Answers(x, s.out[j])
  {
    forall x | Met(s.out, x)
      ensures Met(t.out, x) || Answers(x, s.out[j])
    {
      var i :| 0 <= i < |s.out| && Answers(x, s.out[i]);
      if i < j { assert t.out[i] == s.out[i]; } else if i > j { assert t.out[i - 1] == s.out[i]; }
    }
  }

  /** So the account of live messages and unmet acknowledgements does not grow. */
  lemma WithoutCount(s: Session, t: Session, j: nat)
    requires Listed(s) && j < |s.out| && t.out == Without(s.out, j) && t.awaiting == s.awaiting && t.maximum == s.maximum
    ensures LiveCount(t.out) + |Unmet(t)| <= LiveCount(s.out) + |Unmet(s)|
    ensures Live(s.out[j]) && (forall a | a in s.awaiting :: !Answers(a, s.out[j])) ==>
      LiveCount(t.out) + |Unmet(t)| < LiveCount(s.out) + |Unmet(s)|
  {
    CountWithout(s.out, j);
    WithoutUnmet(s, t, j);
    if x :| x in Unmet(t) && x !in Unmet(s) {
      OneAnswer(s, x, j);
      forall y | y in Unmet(t)
        ensures y in Unmet(s) + {x}
      {
        if y !in Unmet(s) { assert Answers(y, s.out[j]); }
      }
      OneMore(Unmet(t), Unmet(s), x);
    } else {
      assert Unmet(t) <= Unmet(s);
      Fewer(Unmet(t), Unmet(s));
    }
  }

  lemma RemoveBalances(s: Session)
    requires LInv(s) && s.phase.Counted?
    ensures LInv(RemoveAcked(s))
  {
    var j := Find(s.out, s.phase.mid);
    var t := RemoveAcked(s);
    if j == |s.out| {
      assert Unmet(t) == Unmet(s);
    } else if s.out[j].qos == s.phase.qos {
      DropListed(s, j);
      WithoutCount(s, t, j);
    }
  }

  lemma AckReleaseBalances(s: Session)
    requires LInv(s) && s.phase == Removed
    ensures LInv(Release(s.(phase := Idle)))
  {
    var r := s.(phase := Idle);
    assert Unmet(r) == Unmet(s);
    ReleaseBalances(r);
  }

  lemma FailReleaseBalances(s: Session)
    requires LInv(s) && s.phase == FailRemoved
    ensures LInv(Release(RaiseQuota(s).(phase := Idle)))
  {
    var r := RaiseQuota(s).(phase := Idle);
    assert Unmet(r) == Unmet(s);
    ReleaseBalances(r);
  }

  /** A PUBREC for no listed message: its PUBCOMP is the next thing to come. */
  lemma UnknownUnmet(s: Session, t: Session, mid: Mid)
    requires Pubrec(mid) in s.awaiting && Find(s.out, mid) == |s.out| && t.out == s.out && t.maximum == s.maximum
    requires t.awaiting == s.awaiting - {Pubrec(mid)} + {Pubcomp(mid)}
    ensures |Unmet(t)| <= |Unmet(s)|
  {
    var a := Pubrec(mid);
    assert a in Unmet(s);
    OneMore(Unmet(t), Unmet(s) - {a}, Pubcomp(mid));
  }

  lemma UnknownPubrec(s: Session, mid: Mid)
    requires LInv(s) && s.phase == Idle && s.state == Active && Pubrec(mid) in s.awaiting && Find(s.out, mid) == |s.out|
    ensures LInv(AcceptPubrec(s, mid))
  {
    if CanSend(s) { UnknownUnmet(s, AcceptPubrec(s, mid), mid); }
  }

  /** A PUBREC that is accepted: a message that was not in flight is now. */
  lemma KnownPubrec(s: Session, t: Session, mid: Mid, j: nat)
    requires LInv(s) && s.phase == Idle && s.state == Active && Pubrec(mid) in s.awaiting
    requires j == Find(s.out, mid) && j < |s.out| && s.out[j].qos == 2 && PubrecTaken(s, t, j)
    requires t.state == Active ==> t.awaiting == s.awaiting - {Pubrec(mid)} + {Pubcomp(mid)}
    ensures LInv(t)
  {
    var a := Pubrec(mid);
    assert OwnState(s.out[j]);
    PubrecTakenListed(s, t, j);
    CountUpdate(s.out, j, s.out[j].(state := WaitForPubcomp));
    if t.state == Active {
      TakenUnmet(s, t, mid, j);
      if Met(s.out, a) {
        var i := MetBy(s, a);
        Fewer(Unmet(t), Unmet(s));
      } else {
        OneFewer(Unmet(t), Unmet(s), a);
      }
    }
  }

  lemma TakenUnmet(s: Session, t: Session, mid: Mid, j: nat)
    requires Listed(s) && j == Find(s.out, mid) && j < |s.out| && s.out[j].qos == 2 && PubrecTaken(s, t, j)
    requires t.awaiting == s.awaiting - {Pubrec(mid)} + {Pubcomp(mid)}
    ensures Unmet(t) <= Unmet(s) - {Pubrec(mid)}
  {
    assert OwnState(s.out[j]);
    assert Answers(Pubcomp(mid), t.out[j]);
    forall x | Met(s.out, x) && x != Pubrec(mid)
      ensures Met(t.out, x)
    {
      var i :| 0 <= i < |s.out| && Answers(x, s.out[i]);
      assert if i == j then Answers(x, t.out[j]) else t.out[i] == s.out[i];
    }
  }

  lemma AcceptPubrecBalances(s: Session, mid: Mid)
    requires LInv(s) && s.phase == Idle && s.state == Active && Pubrec(mid) in s.awaiting
    ensures LInv(AcceptPubrec(s, mid))
  {
    var j := Find(s.out, mid);
    if j == |s.out| {
      UnknownPubrec(s, mid);
    } else if s.out[j].qos == 2 {
      AcceptPubrecTakes(s, mid, j);
      KnownPubrec(s, AcceptPubrec(s, mid), mid, j);
    }
  }

  /** A PUBREC with an error, for a message that is taken off. */
  lemma FailedCount(s: Session, r: Session, t: Session, mid: Mid, j: nat)
    requires Listed(s) && Pubrec(mid) in s.awaiting && j == Find(s.out, mid) && j < |s.out|
    requires r.out == s.out && r.awaiting == s.awaiting - {Pubrec(mid)} && r.maximum == s.maximum && r.accepted == s.accepted
    requires t.out == Without(r.out, j) && t.awaiting == r.awaiting && t.maximum == r.maximum
    ensures LiveCount(t.out) + |Unmet(t)| < LiveCount(s.out) + |Unmet(s)|
  {
    AckOff(s, r, Pubrec(mid));
    assert Listed(r);
    WithoutCount(r, t, j);
    if Met(s.out, Pubrec(mid)) { var i := MetBy(s, Pubrec(mid)); }
  }

  /** And if there is none to be taken off, no message waits for it. */
  lemma NoneFailed(s: Session, mid: Mid)
    requires Listed(s) && (Find(s.out, mid) == |s.out| || s.out[Find(s.out, mid)].qos != 2)
    ensures !Met(s.out, Pubrec(mid))
  {
    if Met(s.out, Pubrec(mid)) { var i := MetBy(s, Pubrec(mid)); }
  }

  lemma FailPubrecBalances(s: Session, mid: Mid)
    requires LInv(s) && s.phase == Idle && s.state == Active && Pubrec(mid) in s.awaiting
    ensures LInv(FailPubrec(s, mid))
  {
    var r := s.(awaiting := s.awaiting - {Pubrec(mid)}, phase := FailRemoved);
    var j := Find(s.out, mid);
    if j < |s.out| && s.out[j].qos == 2 {
      DropListed(r, j);
      FailedCount(s, r, Drop(r, j), mid, j);
    } else {
      NoneFailed(s, mid);
      AckOff(s, r, Pubrec(mid));
    }
  }

  // ---------------------------------------------------------------- runs

  /** As Conforming, but CONNACK may set any maximum that meets the counted condition. */
  ghost predicate ConformingCount(s: Session, e: Event) {
    if e.Connack? then s.state == Connecting && e.maximum != s.maximum ==> CountedBelow(s, e.maximum) else Conforming(s, e)
  }

  ghost predicate ConformingCounts(s: Session, es: seq<Event>)
    decreases |es|
  {
    es == [] || (ConformingCount(s, es[0]) && ConformingCounts(Step(s, es[0]), es[1..]))
  }

  lemma {:induction false} StepBalances(s: Session, e: Event)
    requires LInv(s) && ConformingCount(s, e)
    ensures LInv(Step(s, e))
  {
    if Enabled(s, e) {
      match e
      case Publish(mid, qos) => PublishBalances(s, mid, qos);
      case Reconnect(life) => ReconnectBalances(s, life);
      case Connack(maximum) =>
        if s.state == Connecting {
          if maximum == s.maximum { AwaitedIsCounted(s, maximum); }
          ConnackBalances(s, maximum);
        }
      case Activate => ActivateBalances(s);
      case AckCount(mid, qos) => if s.state == Active { CountBalances(s, mid, qos); }
      case AckRemove => RemoveBalances(s);
      case AckRelease => AckReleaseBalances(s);
      case PubrecOk(mid) => if s.state == Active { AcceptPubrecBalances(s, mid); }
      case PubrecFail(mid) => if s.state == Active { FailPubrecBalances(s, mid); }
      case PubrecFailRelease => FailReleaseBalances(s);
      case _ =>
    }
  }

  lemma ReconnectBalances(s: Session, life: nat)
    requires LInv(s) && s.phase == Idle
    ensures LInv(Reconnecting(s, life))
  {
    SameListed(s, Reconnecting(s, life));
  }

  lemma {:induction false} RunBalances(s: Session, es: seq<Event>)
    requires LInv(s) && ConformingCounts(s, es)
    ensures LInv(Run(s, es))
    decreases |es|
  {
    if es != [] {
      StepBalances(s, es[0]);
      RunBalances(Step(s, es[0]), es[1..]);
    }
  }

  lemma LInvBounded(s: Session)
    requires LInv(s)
    ensures Bounded(s)
  {
  }

  /** The bound, over every run with a conforming broker whose CONNACKs meet the counted condition. */
  lemma QuotaStaysWithin(maximum: nat, es: seq<Event>)
    requires ConformingCounts(Fresh(maximum), es)
    ensures Bounded(Run(Fresh(maximum), es))
  {
    RunBalances(Fresh(maximum), es);
    LInvBounded(Run(Fresh(maximum), es));
  }
}
