/**
 Packet identifiers: a 16 bit counter that skips zero, without a look at the identifiers in use.
 When a new identifier is fresh, and what that means for runs.
 */
module PacketIds {
  import opened Basics
  import opened Session
  import opened SessionAccounts
  import opened SessionQuota

  /** The identifier of the g-th generation, counted from 1. */
  function Nth(g: nat): Mid
    requires g >= 1
  {
    (g - 1) % 65535 + 1
  }

  class Generator {
    /** Generations so far, and the last identifier; 0 before the first. */
    ghost var count: nat
    var lastMid: nat

    ghost predicate Valid()
      reads this
    {
      lastMid == if count == 0 then 0 else Nth(count)
    }

    constructor ()
      ensures Valid() && count == 0
    {
      count, lastMid := 0, 0;
    }

    /** mosquitto__mid_generate. */
    method Generate() returns (mid: Mid)
      requires Valid()
      modifies this
      ensures Valid() && count == old(count) + 1 && mid == Nth(count)
    {
      NthNext(count);
      lastMid := (lastMid + 1) % 65536;
      if lastMid == 0 {
        lastMid := (lastMid + 1) % 65536;
      }
      count := count + 1;
      mid := lastMid;
    }
  }

  lemma NthNext(g: nat)
    ensures g == 0 ==> Nth(g + 1) == 1
    ensures g >= 1 ==> Nth(g + 1) == if Nth(g) == 65535 then 1 else Nth(g) + 1
  {
  }

  lemma {:induction false} RemainderZero(a: nat, b: nat)
    requires a <= b
    ensures a % 65535 == b % 65535 <==> (b - a) % 65535 == 0
  {
    var qa, qb := a / 65535, b / 65535;
    var ra, rb := a % 65535, b % 65535;
    assert b - a == 65535 * (qb - qa) + (rb - ra);
    if ra <= rb {
      RemainderOf(qb - qa, rb - ra);
    } else {
      RemainderOf(qb - qa - 1, 65535 + rb - ra);
    }
  }

  lemma RemainderOf(q: int, r: nat)
    requires r < 65535
    ensures (65535 * q + r) % 65535 == r
  {
  }

  /** Two generations give the same identifier exactly if they are a multiple of 65535 apart. */
  lemma SameIdentifier(g: nat, h: nat)
    requires 1 <= g <= h
    ensures Nth(g) == Nth(h) <==> (h - g) % 65535 == 0
  {
    RemainderZero(g - 1, h - 1);
  }

  // ---------------------------------------------------------------- listed messages

  /** gen[n] is the generation of the identifier of the n-th accepted publish; `last` is the last generation of all. */
  ghost predicate Generated(s: Session, gen: seq<nat>, last: nat) {
    && |gen| == s.accepted
    && (forall n | 0 <= n < |gen| :: 1 <= gen[n] <= last)
    && (forall i | 0 <= i < |s.out| :: FromGeneration(s.out[i], gen))
  }

  predicate FromGeneration(m: Message, gen: seq<nat>) {
    m.id < |gen| && gen[m.id] >= 1 && m.mid == Nth(gen[m.id])
  }

  /** No listed message is a multiple of 65535 generations older. */
  predicate Apart(out: seq<Message>, gen: seq<nat>, g: nat) {
    forall i | 0 <= i < |out| && out[i].id < |gen| :: (g - gen[out[i].id]) % 65535 != 0
  }

  /** A new identifier is fresh exactly if no listed message is a multiple of 65535 generations older. */
  lemma FreshIsApart(s: Session, gen: seq<nat>, last: nat, g: nat)
    requires Generated(s, gen, last) && g > last
    ensures FreshMid(s.out, Nth(g)) <==> Apart(s.out, gen, g)
  {
    forall i | 0 <= i < |s.out|
      ensures s.out[i].id < |gen| && (s.out[i].mid == Nth(g) <==> (g - gen[s.out[i].id]) % 65535 == 0)
    {
      assert FromGeneration(s.out[i], gen);
      SameIdentifier(gen[s.out[i].id], g);
    }
  }

  // ---------------------------------------------------------------- steps

  /** Each message of b is, by identity and packet id, one of a. */
  ghost predicate Inherits(a: seq<Message>, b: seq<Message>) {
    forall i | 0 <= i < |b| :: Among(a, b[i])
  }

  predicate Among(a: seq<Message>, m: Message) {
    exists j :: 0 <= j < |a| && a[j].id == m.id && a[j].mid == m.mid
  }

  lemma SameInherits(a: seq<Message>, b: seq<Message>)
    requires SameList(a, b)
    ensures Inherits(a, b)
  {
    forall i | 0 <= i < |b|
      ensures Among(a, b[i])
    {
      assert a[i].id == b[i].id && a[i].mid == b[i].mid;
    }
  }

  lemma WithoutInherits(a: seq<Message>, j: nat)
    requires j < |a|
    ensures Inherits(a, Without(a, j))
  {
    forall i | 0 <= i < |a| - 1
      ensures Among(a, Without(a, j)[i])
    {
      assert Without(a, j)[i] == a[if i < j then i else i + 1];
    }
  }

  /** No message appears, and none changes its identity or its packet id. */
  ghost predicate Carried(s: Session, t: Session) {
    Inherits(s.out, t.out) && t.accepted == s.accepted
  }

  lemma SameCarried(s: Session, t: Session)
    requires SameList(s.out, t.out) && t.accepted == s.accepted
    ensures Carried(s, t)
  {
    SameInherits(s.out, t.out);
  }

  lemma ReleaseCarried(s: Session)
    ensures Carried(s, Release(s))
  {
    ReleaseKeeps(s, 0);
    SameCarried(s, Release(s));
  }

  lemma ActivateCarried(s: Session)
    ensures Carried(s, Activating(s))
  {
    RetryKeeps(s.(state := Active), 0);
    RetryKeeps(s, 0);
    if s.state == Accepted {
      RetriedAccounts(s.(state := Active), Activating(s));
    } else if s.state == Down {
      RetriedAccounts(s, Activating(s));
    }
    SameCarried(s, Activating(s));
  }

  lemma ConnackCarried(s: Session, maximum: nat)
    ensures Carried(s, TakeConnack(s, maximum))
  {
    SameCarried(s, TakeConnack(s, maximum));
  }

  lemma AcceptPubrecCarried(s: Session, mid: Mid)
    ensures Carried(s, AcceptPubrec(s, mid))
  {
    AcceptPubrecKeeps(s, mid);
    SameCarried(s, AcceptPubrec(s, mid));
  }

  lemma RemoveCarried(s: Session)
    requires s.phase.Counted?
    ensures Carried(s, RemoveAcked(s))
  {
    var j := Find(s.out, s.phase.mid);
    if j < |s.out| && s.out[j].qos == s.phase.qos {
      WithoutInherits(s.out, j);
    } else {
      SameCarried(s, RemoveAcked(s));
    }
  }

  lemma FailPubrecCarried(s: Session, mid: Mid)
    ensures Carried(s, FailPubrec(s, mid))
  {
    var j := Find(s.out, mid);
    if s.state == Active && j < |s.out| && s.out[j].qos == 2 {
      WithoutInherits(s.out, j);
    } else {
      SameCarried(s, FailPubrec(s, mid));
    }
  }

  lemma {:induction false} StepCarried(s: Session, e: Event)
    requires !e.Publish?
    ensures Carried(s, Step(s, e))
  {
    if !Enabled(s, e) {
      SameCarried(s, s);
    } else {
      match e
      case Connack(maximum) => ConnackCarried(s, maximum);
      case Activate => ActivateCarried(s);
      case AckRemove => RemoveCarried(s);
      case AckRelease => ReleaseCarried(s.(phase := Idle));
      case PubrecOk(mid) => AcceptPubrecCarried(s, mid);
      case PubrecFail(mid) => FailPubrecCarried(s, mid);
      case PubrecFailRelease => ReleaseCarried(RaiseQuota(s).(phase := Idle));
      case _ => SameCarried(s, Step(s, e));
    }
  }

  lemma InheritsGenerated(a: seq<Message>, b: seq<Message>, gen: seq<nat>)
    requires Inherits(a, b) && forall i | 0 <= i < |a| :: FromGeneration(a[i], gen)
    ensures forall i | 0 <= i < |b| :: FromGeneration(b[i], gen)
  {
    forall i | 0 <= i < |b|
      ensures FromGeneration(b[i], gen)
    {
      assert Among(a, b[i]);
      var j :| 0 <= j < |a| && a[j].id == b[i].id && a[j].mid == b[i].mid;
      assert FromGeneration(a[j], gen);
    }
  }

  lemma StepGenerated(s: Session, gen: seq<nat>, last: nat, e: Event, now: nat)
    requires Generated(s, gen, last) && !e.Publish? && now >= last
    ensures Generated(Step(s, e), gen, now)
  {
    StepCarried(s, e);
    InheritsGenerated(s.out, Step(s, e).out, gen);
  }

  lemma PublishGenerated(s: Session, gen: seq<nat>, last: nat, qos: Qos, g: nat)
    requires Generated(s, gen, last) && g > last
    ensures Generated(Step(s, Publish(Nth(g), qos)), gen + [g], g)
  {
    var q := Queued(s, Nth(g), qos);
    forall i | 0 <= i < |q.out|
      ensures FromGeneration(q.out[i], gen + [g])
    {
      if i < |s.out| {
        assert FromGeneration(s.out[i], gen);
      }
    }
    ReleaseCarried(q);
    InheritsGenerated(q.out, Release(q).out, gen + [g]);
  }

  // ---------------------------------------------------------------- runs

  /** The broker's part of a conforming run. */
  predicate BrokerConforms(s: Session, e: Event) { e.Publish? || Conforming(s, e) }

  /**
   A run of a client that takes its packet ids from the generator: before each event `skips` tells
   how many identifiers went elsewhere, to QoS 0 messages or subscriptions; no publish finds a
   listed message a multiple of 65535 generations older; and the broker conforms.
   */
  ghost predicate GeneratedRun(s: Session, gen: seq<nat>, last: nat, es: seq<Event>, skips: seq<nat>)
    decreases |es|
  {
    && |es| == |skips|
    && (es == [] ||
        var before := last + skips[0];
        && BrokerConforms(s, es[0])
        && if es[0].Publish? then
             && es[0].mid == Nth(before + 1) && Apart(s.out, gen, before + 1)
             && GeneratedRun(Step(s, es[0]), gen + [before + 1], before + 1, es[1..], skips[1..])
           else GeneratedRun(Step(s, es[0]), gen, before, es[1..], skips[1..]))
  }

  lemma {:induction false} GeneratedConforms(s: Session, gen: seq<nat>, last: nat, es: seq<Event>, skips: seq<nat>)
    requires Generated(s, gen, last) && GeneratedRun(s, gen, last, es, skips)
    ensures ConformingRun(s, es)
    decreases |es|
  {
    if es != [] {
      var before := last + skips[0];
      if es[0].Publish? {
        FreshIsApart(s, gen, last, before + 1);
        PublishGenerated(s, gen, last, es[0].qos, before + 1);
        GeneratedConforms(Step(s, es[0]), gen + [before + 1], before + 1, es[1..], skips[1..]);
      } else {
        StepGenerated(s, gen, last, es[0], before);
        GeneratedConforms(Step(s, es[0]), gen, before, es[1..], skips[1..]);
      }
    }
  }

  /**
   What is assumed of packet ids in the results on conforming runs follows from the generator, as
   long as no message stays listed for a multiple of 65535 generations.
   */
  lemma GeneratedIdsAreFresh(maximum: nat, es: seq<Event>, skips: seq<nat>)
    requires GeneratedRun(Fresh(maximum), [], 0, es, skips)
    ensures ConformingRun(Fresh(maximum), es)
  {
    GeneratedConforms(Fresh(maximum), [], 0, es, skips);
  }
}
