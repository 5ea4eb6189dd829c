/** What the outstanding acknowledgements say about the list, step by step. */
module SessionAwaiting {
  import opened Basics
  import opened Session
  import opened SessionAccounts
  import opened SessionQuota

  lemma QueuedAwaiting(s: Session, mid: Mid, qos: Qos)
    requires AwaitingKnown(s)
    ensures AwaitingKnown(Queued(s, mid, qos))
  {
    var q := Queued(s, mid, qos);
    forall a | a in s.awaiting && s.state != Down
      ensures Known(q, a)
    {
      var j :| 0 <= j < |s.out| && Answers(a, s.out[j]) && (s.state != Active ==> JustSent(s.out[j]));
      assert q.out[j] == s.out[j];
    }
  }

  /** Nothing but the list, the connection and what is outstanding on it matters. */
  lemma QuietKnown(s: Session, t: Session)
    requires AwaitingKnown(s) && t.out == s.out && t.awaiting == s.awaiting && t.state == s.state && t.twice == s.twice
    ensures AwaitingKnown(t)
  {
    forall a | a in t.awaiting && t.state != Down
      ensures Known(t, a)
    {
      assert Known(s, a);
    }
  }

  /** No acknowledgement is outstanding for the packet id of a waiting message. */
  lemma WaitingNotAwaited(s: Session, i: nat)
    requires DistinctMids(s.out) && AwaitingKnown(s) && s.state != Down
    requires i < |s.out| && !Live(s.out[i])
    ensures forall a | a in s.awaiting :: a.mid != s.out[i].mid
  {
    forall a | a in s.awaiting
      ensures a.mid != s.out[i].mid
    {
      var j :| 0 <= j < |s.out| && Answers(a, s.out[j]) && (s.state != Active ==> JustSent(s.out[j]));
      assert j != i;
    }
  }

  /** Sending a waiting message adds the acknowledgement of that message only. */
  lemma ReleaseOneAwaiting(s: Session, i: nat)
    requires DistinctMids(s.out) && AwaitingKnown(s) && i < |s.out| && !Live(s.out[i])
    ensures
      var s1 := s.(out := s.out[i := InFlight(s.out[i])]);
      AwaitingKnown(Send(s1, PublishOf(InFlight(s.out[i]))))
  {
    var s1 := s.(out := s.out[i := InFlight(s.out[i])]);
    var t := Send(s1, PublishOf(InFlight(s.out[i])));
    if t.state != Down {
      WaitingNotAwaited(s, i);
      forall a | a in t.awaiting
        ensures Known(t, a)
      {
        if a in s.awaiting {
          var j :| 0 <= j < |s.out| && Answers(a, s.out[j]) && (s.state != Active ==> JustSent(s.out[j]));
          assert t.out[j] == s.out[j];
        } else {
          assert Answers(a, t.out[i]);
        }
      }
    }
  }

  /** Behind position i, retry will only send what was not sent on this connection. */
  ghost predicate RetryNew(s: Session, i: nat) {
    s.state != Down ==>
      forall l | i <= l < |s.out| :: forall a | a in s.awaiting && Answers(a, s.out[l]) :: JustSent(s.out[l])
  }

  lemma AcceptedRetryNew(s: Session)
    requires DistinctMids(s.out) && AwaitingKnown(s) && s.state == Accepted
    ensures RetryNew(s.(state := Active), 0) && AwaitingKnown(s.(state := Active))
  {
    var t := s.(state := Active);
    forall a | a in s.awaiting
      ensures Known(t, a)
      ensures forall l | 0 <= l < |s.out| && Answers(a, s.out[l]) :: JustSent(s.out[l])
    {
      var j :| 0 <= j < |s.out| && Answers(a, s.out[j]) && JustSent(s.out[j]);
      assert Answers(a, t.out[j]);
    }
  }

  /** The message at i is sent again only if nothing is outstanding for its packet id. */
  lemma ResentNotAwaited(s: Session, i: nat)
    requires DistinctMids(s.out) && AwaitingKnown(s) && RetryNew(s, i) && s.state == Active
    requires i < |s.out| && Live(s.out[i]) && !JustSent(s.out[i])
    ensures forall a | a in s.awaiting :: a.mid != s.out[i].mid
  {
    forall a | a in s.awaiting
      ensures a.mid != s.out[i].mid
    {
      assert Known(s, a);
      var j :| 0 <= j < |s.out| && Answers(a, s.out[j]);
      assert j != i;
    }
  }

  lemma RetryOneAwaiting(s: Session, i: nat)
    requires Listed(s) && i < |s.out| && AwaitingKnown(s) && RetryNew(s, i) && s.state in {Active, Down}
    ensures AwaitingKnown(Retry(s, i)) && RetryNew(Retry(s, i), i + 1)
  {
    var t := Retry(s, i);
    if t.state != Down && Live(s.out[i]) && !JustSent(s.out[i]) {
      ResentNotAwaited(s, i);
      forall a | a in t.awaiting
        ensures Known(t, a)
      {
        if a in s.awaiting {
          assert Known(s, a);
          var j :| 0 <= j < |s.out| && Answers(a, s.out[j]);
          assert Answers(a, t.out[j]);
        } else {
          assert Answers(a, t.out[i]);
        }
      }
    }
  }

  lemma DropListed(s: Session, j: nat)
    requires Listed(s) && j < |s.out|
    ensures Listed(Drop(s, j))
  {
    var t := Drop(s, j);
    forall i | 0 <= i < |t.out|
      ensures OwnState(t.out[i]) && t.out[i].id < t.accepted
    {
      assert t.out[i] == s.out[if i < j then i else i + 1];
    }
    forall i, k | 0 <= i < k < |t.out|
      ensures t.out[i].mid != t.out[k].mid && t.out[i].id < t.out[k].id
    {
      assert t.out[i] == s.out[if i < j then i else i + 1] && t.out[k] == s.out[if k < j then k else k + 1];
    }
  }

  lemma DropAwaiting(s: Session, j: nat)
    requires j < |s.out| && AwaitingKnown(s)
    requires forall a | a in s.awaiting && s.state != Down :: a.mid != s.out[j].mid
    ensures AwaitingKnown(Drop(s, j))
  {
    var t := Drop(s, j);
    forall a | a in s.awaiting && s.state != Down
      ensures Known(t, a)
    {
      var i :| 0 <= i < |s.out| && Answers(a, s.out[i]) && (s.state != Active ==> JustSent(s.out[i]));
      if i < j { assert t.out[i] == s.out[i]; } else { assert t.out[i - 1] == s.out[i]; }
    }
  }

  /** An outstanding acknowledgement is about one listed message, and no other one is. */
  lemma AnswerPosition(s: Session, a: Ack) returns (j: nat)
    requires Listed(s) && AwaitingKnown(s) && s.state == Active && a in s.awaiting
    ensures j < |s.out| && j == Find(s.out, a.mid) && Answers(a, s.out[j])
    ensures forall b | b in s.awaiting && b != a :: b.mid != a.mid
  {
    assert Known(s, a);
    j :| 0 <= j < |s.out| && Answers(a, s.out[j]);
    FindAt(s.out, a.mid, j);
    forall b | b in s.awaiting && b != a
      ensures b.mid != a.mid
    {
      assert Known(s, b);
      var i :| 0 <= i < |s.out| && Answers(b, s.out[i]);
      assert i == j ==> a == b;
      if b.mid == a.mid && i != j { assert false; }
    }
  }

  /** Taking an acknowledgement off leaves the others as they were. */
  lemma TakenAwaiting(s: Session, a: Ack)
    requires AwaitingKnown(s) && s.state == Active && a in s.awaiting
    ensures AwaitingKnown(s.(awaiting := s.awaiting - {a}))
    ensures a !in s.awaiting - {a}
  {
    var t := s.(awaiting := s.awaiting - {a});
    forall b | b in t.awaiting
      ensures Known(t, b)
    {
      var i :| 0 <= i < |s.out| && Answers(b, s.out[i]);
      assert Answers(b, t.out[i]);
    }
  }

  /** The session when the message of a PUBREC that reports an error has been removed. */
  function Failed(s: Session, mid: Mid, j: nat): Session
    requires j < |s.out|
  {
    Drop(s.(awaiting := s.awaiting - {Pubrec(mid)}, phase := FailRemoved), j)
  }

  lemma FailedAwaiting(s: Session, mid: Mid, j: nat)
    requires Listed(s) && AwaitingKnown(s) && s.state == Active && Pubrec(mid) in s.awaiting
    requires j < |s.out| && s.out[j].mid == mid && forall b | b in s.awaiting && b != Pubrec(mid) :: b.mid != mid
    ensures Listed(Failed(s, mid, j)) && AwaitingKnown(Failed(s, mid, j))
  {
    var s1 := s.(awaiting := s.awaiting - {Pubrec(mid)}, phase := FailRemoved);
    TakenAwaiting(s, Pubrec(mid));
    assert AwaitingKnown(s1);
    DropAwaiting(s1, j);
    assert Listed(s1);
    DropListed(s1, j);
  }

  lemma AcceptPubrecAwaiting(s: Session, mid: Mid, j: nat)
    requires AwaitingKnown(s) && s.state == Active && Pubrec(mid) in s.awaiting
    requires j == Find(s.out, mid) && j < |s.out| && Answers(Pubrec(mid), s.out[j]) && OwnState(s.out[j])
    requires forall b | b in s.awaiting && b != Pubrec(mid) :: b.mid != mid
    ensures AwaitingKnown(AcceptPubrec(s, mid))
  {
    var t := AcceptPubrec(s, mid);
    if t.state != Down {
      forall a | a in t.awaiting
        ensures Known(t, a)
      {
        if a in s.awaiting && a != Pubrec(mid) {
          var i :| 0 <= i < |s.out| && Answers(a, s.out[i]);
          assert t.out[i] == s.out[i];
        } else {
          assert Answers(a, t.out[j]);
        }
      }
    }
  }
}
