/**
 The condition on a CONNACK that changes the inflight maximum is exact: acknowledgements still to
 come for messages at or beyond the new maximum bring quota that only messages waiting below it can use.
 */
module SessionLate {
  import opened Basics
  import opened Session
  import opened SessionAccounts
  import opened SessionQuota
  import opened SessionSteps
  import opened SessionBound
  import opened SessionLedger

  /** The session becomes active and the broker acknowledges the message. */
  function LateAck(a: Ack): seq<Event> {
    match a
    case Pubrec(mid) => [Activate, PubrecOk(mid)]
    case Puback(mid) => [Activate, AckCount(mid, 1), AckRemove, AckRelease]
    case Pubcomp(mid) => [Activate, AckCount(mid, 2), AckRemove, AckRelease]
  }

  /** An acknowledgement is outstanding for the message at i, which a CONNACK with this maximum drops from the window. */
  ghost predicate Late(s: Session, maximum: nat, a: Ack, i: nat) {
    && Listed(s) && AwaitingKnown(s) && s.state == Connecting && s.phase == Idle
    && 1 <= maximum <= i < |s.out| && a in s.awaiting && Answers(a, s.out[i])
    && Filled(s, maximum) && s.life > |s.out|
  }

  /** The window of the new maximum is used up. */
  predicate Filled(s: Session, maximum: nat) { forall l | 0 <= l < |s.out| && l < maximum :: Live(s.out[l]) }

  // ---------------------------------------------------------------- CONNACK and retry

  lemma {:induction false} RetryLasts(s: Session, i: nat)
    requires i <= |s.out| && s.state == Active && s.life > |s.out| - i
    ensures
      var t := RetryFrom(s, i);
      t.state == Active && t.life > 0 && t.life >= s.life - (|s.out| - i) && s.awaiting <= t.awaiting
    decreases |s.out| - i
  {
    if i < |s.out| {
      RetryLasts(Retry(s, i), i + 1);
    }
  }

  /** After the CONNACK and the retry: no quota, and as many live messages as the maximum. */
  ghost predicate Established(s: Session, maximum: nat, a: Ack, i: nat) {
    && s.state == Active && s.phase == Idle && s.life > 0
    && s.quota == 0 && s.maximum == maximum && LiveCount(s.out) == maximum
    && DistinctMids(s.out) && i < |s.out| && s.out[i].mid == a.mid && s.out[i].state == Invalid
    && s.out[i].qos == (if a.Puback? then 1 else 2) && a in s.awaiting
  }

  /** It was sent on this connection, before the CONNACK. */
  lemma LateIsSent(s: Session, maximum: nat, a: Ack, i: nat)
    requires Late(s, maximum, a, i)
    ensures !a.Pubcomp? && s.out[i].qos == (if a.Puback? then 1 else 2)
  {
    assert Known(s, a);
    var j :| 0 <= j < |s.out| && Answers(a, s.out[j]) && JustSent(s.out[j]);
    assert j == i && OwnState(s.out[i]);
  }

  /** What the CONNACK leaves of the list. */
  predicate Windowed(s: Session, t: Session, maximum: nat) {
    && |t.out| == |s.out|
    && forall l | 0 <= l < |s.out| :: t.out[l] == if l < maximum then s.out[l] else s.out[l].(state := Invalid)
  }

  lemma WindowCount(s: Session, t: Session, maximum: nat)
    requires Windowed(s, t, maximum) && Filled(s, maximum) && maximum <= |s.out|
    ensures LiveCount(t.out) == maximum
  {
    assert Shape(t.out, maximum);
    ShapeCount(t.out, maximum);
  }

  lemma EstablishedFrom(s: Session, c: Session, t: Session, maximum: nat, a: Ack, i: nat)
    requires Late(s, maximum, a, i) && Windowed(s, c, maximum) && c.awaiting == s.awaiting
    requires c.quota == 0 && c.maximum == maximum && c.phase == Idle
    requires Retried(c, t) && t.state == Active && t.life > 0 && c.awaiting <= t.awaiting
    ensures !a.Pubcomp? && Established(t, maximum, a, i)
  {
    LateIsSent(s, maximum, a, i);
    WindowCount(s, c, maximum);
    assert forall l | 0 <= l < |t.out| :: t.out[l] == c.out[l].(dup := t.out[l].dup);
    CountSame(t.out, c.out);
    forall l, k | 0 <= l < k < |t.out|
      ensures t.out[l].mid != t.out[k].mid
    {
      assert s.out[l].mid != s.out[k].mid;
    }
  }

  lemma LateIsEstablished(s: Session, maximum: nat, a: Ack, i: nat)
    requires Late(s, maximum, a, i)
    ensures !a.Pubcomp? && Established(Activating(TakeConnack(s, maximum)), maximum, a, i)
  {
    var c := TakeConnack(s, maximum).(state := Active);
    assert Windowed(s, c, maximum);
    RetryLasts(c, 0);
    RetryKeeps(c, 0);
    EstablishedFrom(s, c, RetryFrom(c, 0), maximum, a, i);
  }

  // ---------------------------------------------------------------- the acknowledgement

  lemma {:induction false} ReleaseLasts(s: Session, i: nat)
    requires i <= |s.out| && s.state == Active && s.life > 0 && s.quota <= 1
    ensures ReleaseFrom(s, i).state == Active
    decreases |s.out| - i
  {
    if i < |s.out| && s.quota == 1 {
      if s.out[i].state != Invalid {
        ReleaseLasts(s, i + 1);
      }
    }
  }

  /** A late PUBACK: the quota comes back although the message had none. */
  lemma PubackExceeds(s: Session, maximum: nat, mid: Mid, i: nat)
    requires Established(s, maximum, Puback(mid), i) && maximum >= 1
    ensures
      var c := CountAck(s, mid, 1);
      && c.phase.Counted? && RemoveAcked(c).phase == Removed
      && var t := Release(RemoveAcked(c).(phase := Idle));
      t.state == Active && t.phase == Idle && t.maximum == maximum && t.quota + LiveCount(t.out) == maximum + 1
  {
    FindAt(s.out, mid, i);
    CountWithout(s.out, i);
    var r := RemoveAcked(CountAck(s, mid, 1)).(phase := Idle);
    ReleaseLasts(r, 0);
    ReleaseMoves(r, 0);
  }

  /** A late PUBREC: the message is live again without quota. */
  lemma PubrecExceeds(s: Session, maximum: nat, mid: Mid, i: nat)
    requires Established(s, maximum, Pubrec(mid), i)
    ensures
      var t := AcceptPubrec(s, mid);
      t.state == Active && t.phase == Idle && t.maximum == maximum && t.quota + LiveCount(t.out) == maximum + 1
  {
    FindAt(s.out, mid, i);
    CountUpdate(s.out, i, s.out[i].(state := WaitForPubcomp));
  }

  lemma First(s: Session, e: Event, es: seq<Event>)
    ensures Run(s, [e] + es) == Run(Step(s, e), es)
    ensures ConformingCounts(s, [e] + es) <==> ConformingCount(s, e) && ConformingCounts(Step(s, e), es)
  {
    assert ([e] + es)[1..] == es;
  }

  /** A late acknowledgement, from the session it finds. */
  ghost predicate Exceeds(s: Session, es: seq<Event>) {
    && ConformingCounts(s, es)
    && var t := Run(s, es);
    t.state == Active && t.phase == Idle && t.quota + LiveCount(t.out) == t.maximum + 1
  }

  lemma PubackRuns(s: Session, maximum: nat, mid: Mid, i: nat)
    requires Established(s, maximum, Puback(mid), i) && maximum >= 1
    ensures Exceeds(s, [AckCount(mid, 1)] + ([AckRemove] + ([AckRelease] + [])))
  {
    PubackExceeds(s, maximum, mid, i);
    var c := CountAck(s, mid, 1);
    var r := RemoveAcked(c);
    First(r, AckRelease, []);
    First(c, AckRemove, [AckRelease] + []);
    First(s, AckCount(mid, 1), [AckRemove] + ([AckRelease] + []));
  }

  lemma PubrecRuns(s: Session, maximum: nat, mid: Mid, i: nat)
    requires Established(s, maximum, Pubrec(mid), i)
    ensures Exceeds(s, [PubrecOk(mid)] + [])
  {
    PubrecExceeds(s, maximum, mid, i);
    First(s, PubrecOk(mid), []);
  }

  /**
   While waiting for CONNACK: if something outstanding sits at or beyond the new maximum and the messages
   below are live, then on a connection that lasts its acknowledgement takes quota plus live messages
   to one above the maximum.
   */
  lemma LateAckExceeds(s: Session, maximum: nat, a: Ack, i: nat)
    requires Late(s, maximum, a, i)
    ensures Exceeds(TakeConnack(s, maximum), LateAck(a))
  {
    var s1 := TakeConnack(s, maximum);
    var s2 := Activating(s1);
    LateIsEstablished(s, maximum, a, i);
    assert Step(s1, Activate) == s2;
    match a
    case Puback(mid) =>
      PubackRuns(s2, maximum, mid, i);
      var es := [AckCount(mid, 1)] + ([AckRemove] + ([AckRelease] + []));
      First(s1, Activate, es);
      assert LateAck(a) == [Activate] + es;
    case Pubrec(mid) =>
      PubrecRuns(s2, maximum, mid, i);
      First(s1, Activate, [PubrecOk(mid)] + []);
      assert LateAck(a) == [Activate] + ([PubrecOk(mid)] + []);
  }

  // ---------------------------------------------------------------- exactly when

  /** The message this late acknowledgement is about, out of the window. */
  predicate Held(a: Ack, m: Message) {
    a.mid == m.mid && !Live(m) && !a.Pubcomp? && m.qos == if a.Puback? then 1 else 2
  }

  ghost predicate Waiting(s: Session, a: Ack) {
    exists i :: s.maximum <= i < |s.out| && Held(a, s.out[i])
  }

  ghost predicate AllWait(s: Session, late: set<Ack>) { forall a | a in late :: Waiting(s, a) }

  /**
   An established session without quota, `gap` live messages short of the maximum, with at least so many
   messages waiting below it, and with more late acknowledgements to come.
   */
  ghost predicate Ripe(s: Session, late: set<Ack>, gap: nat) {
    && s.state == Active && s.phase == Idle && s.quota == 0 && 1 <= s.maximum <= |s.out| && s.life > gap
    && DistinctMids(s.out) && |late| > gap && late <= s.awaiting && AllWait(s, late)
    && LiveCount(s.out) + gap == s.maximum && LiveCount(s.out[..s.maximum]) + gap <= s.maximum
  }

  /** A run with a conforming broker at whose end the bound does not hold. */
  ghost predicate Breaks(s: Session, es: seq<Event>) {
    ConformingCounts(s, es) && !Bounded(Run(s, es))
  }

  lemma BreaksAfter(s: Session, e: Event, t: Session, es: seq<Event>)
    requires ConformingCount(s, e) && Step(s, e) == t && Breaks(t, es)
    ensures Breaks(s, [e] + es)
  {
    First(s, e, es);
  }

  lemma {:induction false} FirstDead(out: seq<Message>, m: nat) returns (f: nat)
    requires m <= |out| && LiveCount(out[..m]) < m
    ensures f < m && !Live(out[f]) && forall l | 0 <= l < f :: Live(out[l])
  {
    var k := m - 1;
    assert out[..m][..k] == out[..k];
    if LiveCount(out[..k]) < k {
      f := FirstDead(out, k);
    } else {
      f := k;
      CountFull(out[..k]);
    }
  }

  lemma {:induction false} CountFull(out: seq<Message>)
    requires LiveCount(out) >= |out|
    ensures forall l | 0 <= l < |out| :: Live(out[l])
  {
    if out != [] {
      CountBelow(out[..|out| - 1], |out| - 1);
      CountFull(out[..|out| - 1]);
    }
  }

  /** The others still wait when the message at i has been taken off, or is live again, and one at f < maximum sent. */
  lemma OthersWait(s: Session, t: Session, late: set<Ack>, a: Ack, i: nat)
    requires DistinctMids(s.out) && s.maximum <= i < |s.out| && Held(a, s.out[i]) && t.maximum == s.maximum
    requires AllWait(s, late)
    requires if |t.out| == |s.out| then forall l | s.maximum <= l < |s.out| && l != i :: t.out[l] == s.out[l]
             else |t.out| == |s.out| - 1 && forall l | s.maximum <= l < |t.out| :: t.out[l] == s.out[if l < i then l else l + 1]
    ensures AllWait(t, late - {a})
  {
    forall b | b in late - {a}
      ensures Waiting(t, b)
    {
      assert Waiting(s, b);
      var l :| s.maximum <= l < |s.out| && Held(b, s.out[l]);
      assert l != i;
      var k := if |t.out| == |s.out| || l < i then l else l - 1;
      assert t.out[k] == s.out[l];
    }
  }

  /** One late acknowledgement less, and one live message more. */
  lemma RipeNext(s: Session, t: Session, late: set<Ack>, gap: nat, a: Ack)
    requires Ripe(s, late, gap) && gap > 0 && a in late
    requires t.state == Active && t.phase == Idle && t.quota == 0 && s.maximum == t.maximum <= |t.out| && t.life >= s.life - 1
    requires DistinctMids(t.out) && s.awaiting - {a} <= t.awaiting && AllWait(t, late - {a})
    requires LiveCount(t.out) == LiveCount(s.out) + 1 && LiveCount(t.out[..s.maximum]) <= LiveCount(s.out[..s.maximum]) + 1
    ensures Ripe(t, late - {a}, gap - 1)
  {
  }

  /** A late PUBREC: the message is live again. */
  lemma PubrecRipens(s: Session, t: Session, mid: Mid, i: nat)
    requires s.state == Active && s.phase == Idle && s.life > 0 && s.maximum <= i < |s.out|
    requires DistinctMids(s.out) && Held(Pubrec(mid), s.out[i]) && t == AcceptPubrec(s, mid)
    ensures PubrecTaken(s, t, i) && t.state == Active && t.life == s.life - 1 && s.awaiting - {Pubrec(mid)} <= t.awaiting
    ensures DistinctMids(t.out) && LiveCount(t.out) == LiveCount(s.out) + 1 && t.out[..s.maximum] == s.out[..s.maximum]
  {
    FindAt(s.out, mid, i);
    CountUpdate(s.out, i, s.out[i].(state := WaitForPubcomp));
  }

  lemma RipePubrec(s: Session, late: set<Ack>, gap: nat, mid: Mid, i: nat)
    requires Ripe(s, late, gap) && gap > 0 && Pubrec(mid) in late && s.maximum <= i < |s.out| && Held(Pubrec(mid), s.out[i])
    ensures Ripe(AcceptPubrec(s, mid), late - {Pubrec(mid)}, gap - 1)
  {
    var t := AcceptPubrec(s, mid);
    PubrecRipens(s, t, mid, i);
    OthersWait(s, t, late, Pubrec(mid), i);
    RipeNext(s, t, late, gap, Pubrec(mid));
  }

  /** A late PUBACK: its message is taken off, and the quota goes to the first one that waits, which is below. */
  predicate Passed(s: Session, u: Session, i: nat, f: nat) {
    && f < s.maximum <= i < |s.out| && !Live(s.out[f])
    && u.out == Without(s.out, i)[f := InFlight(s.out[f])]
    && u.state == Active && u.phase == Idle && u.quota == 0 && u.maximum == s.maximum && u.life == s.life - 1
  }

  lemma PubackPasses(s: Session, mid: Mid, i: nat, f: nat)
    requires s.state == Active && s.phase == Idle && s.quota == 0 && s.life > 0 && 1 <= s.maximum <= i < |s.out|
    requires DistinctMids(s.out) && Held(Puback(mid), s.out[i])
    requires f < s.maximum && !Live(s.out[f]) && forall l | 0 <= l < f :: Live(s.out[l])
    ensures
      var c := CountAck(s, mid, 1);
      && c.phase.Counted? && RemoveAcked(c).phase == Removed
      && var u := Release(RemoveAcked(c).(phase := Idle));
      Passed(s, u, i, f) && s.awaiting - {Puback(mid)} <= u.awaiting
  {
    FindAt(s.out, mid, i);
    var r := RemoveAcked(CountAck(s, mid, 1)).(phase := Idle);
    assert forall l | 0 <= l <= f :: r.out[l] == s.out[l];
    SkipLive(r, 0, f);
    assert ReleaseFrom(r, f) == ReleaseFrom(SentAt(r, f), f + 1) == SentAt(r, f);
  }

  lemma PassedCount(s: Session, u: Session, i: nat, f: nat)
    requires Passed(s, u, i, f) && !Live(s.out[i])
    ensures LiveCount(u.out) == LiveCount(s.out) + 1
    ensures s.maximum < |s.out| && LiveCount(u.out[..s.maximum]) == LiveCount(s.out[..s.maximum]) + 1
  {
    var m := s.maximum;
    CountWithout(s.out, i);
    CountUpdate(Without(s.out, i), f, InFlight(s.out[f]));
    CountUpdate(s.out[..m], f, InFlight(s.out[f]));
    assert u.out[..m] == s.out[..m][f := InFlight(s.out[f])];
  }

  lemma PassedDistinct(s: Session, u: Session, i: nat, f: nat)
    requires Passed(s, u, i, f) && DistinctMids(s.out)
    ensures DistinctMids(u.out)
  {
    forall l, k | 0 <= l < k < |u.out|
      ensures u.out[l].mid != u.out[k].mid
    {
      assert u.out[l].mid == s.out[if l < i then l else l + 1].mid && u.out[k].mid == s.out[if k < i then k else k + 1].mid;
    }
  }

  lemma RipePuback(s: Session, u: Session, late: set<Ack>, gap: nat, mid: Mid, i: nat, f: nat)
    requires Ripe(s, late, gap) && gap > 0 && Puback(mid) in late && s.maximum <= i < |s.out| && Held(Puback(mid), s.out[i])
    requires Passed(s, u, i, f) && s.awaiting - {Puback(mid)} <= u.awaiting
    ensures Ripe(u, late - {Puback(mid)}, gap - 1)
  {
    PassedCount(s, u, i, f);
    PassedDistinct(s, u, i, f);
    PassedBehind(s, u, i, f);
    OthersWait(s, u, late, Puback(mid), i);
    RipeNext(s, u, late, gap, Puback(mid));
  }

  lemma PassedBehind(s: Session, u: Session, i: nat, f: nat)
    requires Passed(s, u, i, f)
    ensures |u.out| == |s.out| - 1 && forall l | s.maximum <= l < |u.out| :: u.out[l] == s.out[if l < i then l else l + 1]
  {
  }

  lemma {:induction false} PubackSteps(s: Session, mid: Mid, c: Session, r: Session, u: Session, es: seq<Event>)
    requires s.phase == Idle && s.state == Active && Puback(mid) in s.awaiting && c == CountAck(s, mid, 1)
    requires c.phase.Counted? && r == RemoveAcked(c) && r.phase == Removed && u == Release(r.(phase := Idle)) && Breaks(u, es)
    ensures Breaks(s, [AckCount(mid, 1)] + ([AckRemove] + ([AckRelease] + es)))
  {
    BreaksAfter(r, AckRelease, u, es);
    BreaksAfter(c, AckRemove, r, [AckRelease] + es);
    BreaksAfter(s, AckCount(mid, 1), c, [AckRemove] + ([AckRelease] + es));
  }

  lemma {:induction false} RipeBreaks(s: Session, late: set<Ack>, gap: nat) returns (es: seq<Event>)
    requires Ripe(s, late, gap)
    ensures Breaks(s, es)
    decreases gap, 1
  {
    var a :| a in late;
    assert Waiting(s, a);
    var i :| s.maximum <= i < |s.out| && Held(a, s.out[i]);
    if gap == 0 {
      match a
      case Puback(mid) =>
        PubackRuns(s, s.maximum, mid, i);
        es := [AckCount(mid, 1)] + ([AckRemove] + ([AckRelease] + []));
      case Pubrec(mid) =>
        PubrecRuns(s, s.maximum, mid, i);
        es := [PubrecOk(mid)] + [];
    } else {
      match a
      case Puback(mid) => es := PubackGoesOn(s, late, gap, mid, i);
      case Pubrec(mid) =>
        RipePubrec(s, late, gap, mid, i);
        var more := RipeBreaks(AcceptPubrec(s, mid), late - {a}, gap - 1);
        BreaksAfter(s, PubrecOk(mid), AcceptPubrec(s, mid), more);
        es := [PubrecOk(mid)] + more;
    }
  }

  lemma {:induction false} PubackGoesOn(s: Session, late: set<Ack>, gap: nat, mid: Mid, i: nat) returns (es: seq<Event>)
    requires Ripe(s, late, gap) && gap > 0 && Puback(mid) in late && s.maximum <= i < |s.out| && Held(Puback(mid), s.out[i])
    ensures Breaks(s, es)
    decreases gap, 0
  {
    var f := FirstDead(s.out, s.maximum);
    PubackPasses(s, mid, i, f);
    var c := CountAck(s, mid, 1);
    var r := RemoveAcked(c);
    var u := Release(r.(phase := Idle));
    RipePuback(s, u, late, gap, mid, i, f);
    var more := RipeBreaks(u, late - {Puback(mid)}, gap - 1);
    PubackSteps(s, mid, c, r, u, more);
    es := [AckCount(mid, 1)] + ([AckRemove] + ([AckRelease] + more));
  }

  /** Each late acknowledgement is about a message that the CONNACK has taken out of the window. */
  lemma LateWaits(s: Session, t: Session, maximum: nat, a: Ack)
    requires Listed(s) && Early(s) && a in LateAcks(s, maximum) && t.maximum == maximum && Outside(s, t, maximum)
    ensures Waiting(t, a)
  {
    var i :| maximum <= i < |s.out| && Answers(a, s.out[i]);
    assert SentFor(s.out, a);
    var j :| 0 <= j < |s.out| && Answers(a, s.out[j]) && JustSent(s.out[j]);
    assert j == i && OwnState(s.out[i]);
    assert Held(a, t.out[i]);
  }

  /** What CONNACK and the retry leave, on a connection that lasts. */
  lemma ConnackRetried(s: Session, maximum: nat)
    requires LInv(s) && s.state == Connecting && s.life > 2 * |s.out|
    ensures
      var c := TakeConnack(s, maximum);
      var t := Activating(c);
      && SameStates(c.out, t.out) && t.state == Active && t.phase == Idle && t.maximum == maximum && t.quota == c.quota
      && t.life > |s.out| && s.awaiting <= t.awaiting
  {
    var c := TakeConnack(s, maximum).(state := Active);
    RetryLasts(c, 0);
    RetryKeeps(c, 0);
  }

  lemma LateRipens(s: Session, maximum: nat, t: Session)
    requires LInv(s) && s.state == Connecting && s.life > 2 * |s.out| && maximum >= 1 && !CountedBelow(s, maximum)
    requires t == Activating(TakeConnack(s, maximum))
    ensures Ripe(t, LateAcks(s, maximum), Free(s.out, maximum))
  {
    var c := TakeConnack(s, maximum);
    ConnackRetried(s, maximum);
    ConnackLive(s, maximum);
    SomeLate(s, maximum);
    Ripens(s, c, t, maximum);
  }

  lemma Ripens(s: Session, c: Session, t: Session, maximum: nat)
    requires Listed(s) && Early(s) && 1 <= maximum < |s.out| && !CountedBelow(s, maximum)
    requires Windowed(s, c, maximum) && LiveCount(c.out) + Free(s.out, maximum) == maximum && SameStates(c.out, t.out)
    requires t.state == Active && t.phase == Idle && t.maximum == maximum && t.quota == 0
    requires t.life > |s.out| && s.awaiting <= t.awaiting
    ensures Ripe(t, LateAcks(s, maximum), Free(s.out, maximum))
  {
    assert c.out[..maximum] == s.out[..maximum];
    RipeCounts(c, t, maximum);
    WindowLeaves(s, c, t, maximum);
    AllLateWait(s, t, maximum);
  }

  /** What lies at or beyond the maximum waits, and the packet ids are as they were. */
  predicate Outside(s: Session, t: Session, maximum: nat) {
    && |t.out| == |s.out|
    && forall l | maximum <= l < |s.out| :: t.out[l] == s.out[l].(state := Invalid, dup := t.out[l].dup)
  }

  lemma WindowLeaves(s: Session, c: Session, t: Session, maximum: nat)
    requires DistinctMids(s.out) && Windowed(s, c, maximum) && SameStates(c.out, t.out)
    ensures Outside(s, t, maximum) && DistinctMids(t.out)
  {
    assert forall l | 0 <= l < |t.out| :: t.out[l] == c.out[l].(dup := t.out[l].dup);
    forall l, k | 0 <= l < k < |t.out|
      ensures t.out[l].mid != t.out[k].mid
    {
      assert s.out[l].mid != s.out[k].mid;
    }
  }

  lemma AllLateWait(s: Session, t: Session, maximum: nat)
    requires Listed(s) && Early(s) && Outside(s, t, maximum) && t.maximum == maximum
    ensures AllWait(t, LateAcks(s, maximum))
  {
    forall a | a in LateAcks(s, maximum)
      ensures Waiting(t, a)
    {
      LateWaits(s, t, maximum, a);
    }
  }

  lemma SomeLate(s: Session, maximum: nat)
    requires |LateAcks(s, maximum)| > 0
    ensures maximum < |s.out|
  {
    var a :| a in LateAcks(s, maximum);
  }

  lemma RipeCounts(c: Session, t: Session, m: nat)
    requires SameStates(c.out, t.out) && m <= |c.out|
    ensures LiveCount(t.out) == LiveCount(c.out) && LiveCount(t.out[..m]) == LiveCount(c.out[..m])
  {
    assert forall l | 0 <= l < |t.out| :: t.out[l] == c.out[l].(dup := t.out[l].dup);
    CountSame(t.out, c.out);
    CountSame(t.out[..m], c.out[..m]);
  }

  /** With no messages allowed in flight, a late PUBREC puts one there. */
  lemma LateAtZero(s: Session, t: Session) returns (es: seq<Event>)
    requires LInv(s) && s.state == Connecting && s.life > 2 * |s.out| && !CountedBelow(s, 0)
    requires t == Activating(TakeConnack(s, 0))
    ensures Breaks(t, es)
  {
    var a :| a in LateAcks(s, 0);
    var i := ZeroEstablished(s, t, a);
    PubrecRuns(t, 0, a.mid, i);
    es := [PubrecOk(a.mid)] + [];
  }

  lemma ZeroEstablished(s: Session, t: Session, a: Ack) returns (i: nat)
    requires LInv(s) && s.state == Connecting && s.life > 2 * |s.out| && a in LateAcks(s, 0)
    requires t == Activating(TakeConnack(s, 0))
    ensures a.Pubrec? && Established(t, 0, a, i)
  {
    var c := TakeConnack(s, 0);
    ConnackRetried(s, 0);
    ConnackLive(s, 0);
    RipeCounts(c, t, 0);
    WindowLeaves(s, c, t, 0);
    LateWaits(s, t, 0, a);
    i :| 0 <= i < |t.out| && Held(a, t.out[i]);
  }

  /** The bound holds in every continuation with a conforming broker. */
  ghost predicate StaysBounded(s: Session) {
    forall es | ConformingCounts(s, es) :: Bounded(Run(s, es))
  }

  lemma NotBounded(s: Session, es: seq<Event>)
    requires Breaks(s, es)
    ensures !StaysBounded(s)
  {
  }

  /**
   The condition is exact: while waiting for CONNACK on a connection that lasts, and for every new
   maximum, the bound holds in every continuation with a conforming broker if and only if there are
   no more late acknowledgements to come than messages waiting below the new maximum. With the new
   maximum 0 only PUBRECs count as late.
   */
  lemma ConnackConditionIsExact(s: Session, maximum: nat)
    requires LInv(s) && s.state == Connecting && s.life > 2 * |s.out|
    ensures CountedBelow(s, maximum) <==> StaysBounded(TakeConnack(s, maximum))
  {
    var c := TakeConnack(s, maximum);
    if CountedBelow(s, maximum) {
      ConnackBalances(s, maximum);
      forall es | ConformingCounts(c, es)
        ensures Bounded(Run(c, es))
      {
        RunBalances(c, es);
        LInvBounded(Run(c, es));
      }
    } else {
      var t := Activating(c);
      var es;
      if maximum == 0 {
        es := LateAtZero(s, t);
      } else {
        LateRipens(s, maximum, t);
        es := RipeBreaks(t, LateAcks(s, maximum), Free(s.out, maximum));
      }
      BreaksAfter(c, Activate, t, es);
      NotBounded(c, [Activate] + es);
    }
  }

  // ---------------------------------------------------------------- it happens

  /** A client with maximum 2 publishes two QoS 1 messages after CONNECT, before the CONNACK. */
  function EarlyPublishes(): seq<Event> { [Reconnect(9), Publish(1, 1), Publish(2, 1)] }

  function BeforeConnack(): Session {
    Session([Message(0, 1, 1, WaitForPuback, false), Message(1, 2, 1, WaitForPuback, false)],
            0, 2, 2, Connecting, Idle, 7, [WPublish(0, 1, 1, false), WPublish(1, 2, 1, false)],
            {Puback(1), Puback(2)}, false, 2, [])
  }

  lemma SecondPublishRuns(s: Session)
    requires s == Session([Message(0, 1, 1, WaitForPuback, false)], 1, 2, 1, Connecting, Idle, 8,
                          [WPublish(0, 1, 1, false)], {Puback(1)}, false, 1, [])
    ensures Step(s, Publish(2, 1)) == BeforeConnack()
  {
    var q := Queued(s, 2, 1);
    assert q.out == [s.out[0], Message(1, 2, 1, Invalid, false)];
    assert ReleaseFrom(q, 0) == ReleaseFrom(q, 1) == BeforeConnack();
  }

  lemma EarlyPublishesRun()
    ensures Run(Fresh(2), EarlyPublishes()) == BeforeConnack()
  {
    var s1 := Session([], 2, 2, 0, Connecting, Idle, 9, [], {}, false, 0, []);
    assert Step(Fresh(2), Reconnect(9)) == s1;
    var s2 := Session([Message(0, 1, 1, WaitForPuback, false)], 1, 2, 1, Connecting, Idle, 8,
                      [WPublish(0, 1, 1, false)], {Puback(1)}, false, 1, []);
    assert Step(s1, Publish(1, 1)) == s2;
    SecondPublishRuns(s2);
    RunThree(Fresh(2), Reconnect(9), Publish(1, 1), Publish(2, 1));
  }

  lemma EarlyIsLate()
    ensures Late(BeforeConnack(), 1, Puback(2), 1)
  {
    var s := BeforeConnack();
    assert Known(s, Puback(1)) by { assert Answers(Puback(1), s.out[0]); }
    assert Known(s, Puback(2)) by { assert Answers(Puback(2), s.out[1]); }
  }

  /** A CONNACK with maximum 1 then finds the second message outstanding, and the bound fails. */
  lemma EarlyPublishBreaksBound()
    ensures
      var t := Run(Fresh(2), EarlyPublishes() + [Connack(1)] + LateAck(Puback(2)));
      t.state == Active && t.phase == Idle && t.quota + LiveCount(t.out) == t.maximum + 1
  {
    var es, s := EarlyPublishes(), BeforeConnack();
    EarlyPublishesRun();
    EarlyIsLate();
    LateAckExceeds(s, 1, Puback(2), 1);
    ConnackThen(es, s, 1, LateAck(Puback(2)));
  }

  lemma ConnackThen(es: seq<Event>, s: Session, maximum: nat, after: seq<Event>)
    requires Run(Fresh(2), es) == s && s.phase == Idle
    ensures Run(Fresh(2), es + [Connack(maximum)] + after) == Run(TakeConnack(s, maximum), after)
  {
    RunConcat(Fresh(2), es + [Connack(maximum)], after);
    RunAppend(Fresh(2), es, Connack(maximum));
  }
}
