/**
 Flow control with a conforming broker: which messages are live, what the broker may acknowledge,
 and the invariant that runs with a fixed inflight maximum keep.
 */
module SessionQuota {
  import opened Basics
  import opened Session
  import opened SessionAccounts

  predicate Live(m: Message) { m.state != Invalid }

  /** Number of messages that are not waiting for quota. */
  function LiveCount(out: seq<Message>): nat {
    if out == [] then 0
    else LiveCount(out[..|out| - 1]) + (if Live(out[|out| - 1]) then 1 else 0)
  }

  /** The first k messages are live and the others wait. */
  ghost predicate Shape(out: seq<Message>, k: nat) {
    && k <= |out|
    && forall i | 0 <= i < |out| :: Live(out[i]) <==> i < k
  }

  lemma {:induction false} ShapeCount(out: seq<Message>, k: nat)
    requires Shape(out, k)
    ensures LiveCount(out) == k
  {
    if out != [] {
      ShapeCount(out[..|out| - 1], Min(k, |out| - 1));
    }
  }

  // ---------------------------------------------------------------- the broker

  /** The message at position j is one this acknowledgement can be about. */
  predicate Answers(a: Ack, m: Message) {
    && a.mid == m.mid
    && match a
       case Puback(_) => m.state in {PublishQos1, WaitForPuback}
       case Pubrec(_) => m.state in {PublishQos2, WaitForPubrec}
       case Pubcomp(_) => m.state in {ResendPubrel, WaitForPubcomp}
  }

  predicate FreshMid(out: seq<Message>, mid: Mid) {
    forall i | 0 <= i < |out| :: out[i].mid != mid
  }

  /**
   The broker acknowledges only what was sent on the present connection, once, and well
   formed; packet ids are not reused while outstanding; CONNACK does not change the maximum.
   */
  predicate Conforming(s: Session, e: Event) {
    match e
    case Publish(mid, _) => FreshMid(s.out, mid)
    case Connack(maximum) => maximum == s.maximum
    case AckCount(mid, qos) => s.state == Active ==> AckFor(mid, qos) in s.awaiting
    case AckMalformed => s.state != Active
    case PubrecOk(mid) => s.state == Active ==> Pubrec(mid) in s.awaiting
    case PubrecFail(mid) => s.state == Active ==> Pubrec(mid) in s.awaiting
    case _ => true
  }

  predicate ConformingRun(s: Session, es: seq<Event>)
    decreases |es|
  {
    es == [] || (Conforming(s, es[0]) && ConformingRun(Step(s, es[0]), es[1..]))
  }

  // ---------------------------------------------------------------- the invariant

  /** How far quota plus live messages is off the maximum inside a handler. */
  function Debt(p: AckPhase): int {
    match p
    case Counted(_, _) => 1
    case FailRemoved => -1
    case _ => 0
  }

  function Slack(p: AckPhase): int { if p.Counted? || p == Removed then 1 else 0 }

  function Lag(p: AckPhase): int { if p == Removed || p == FailRemoved then 1 else 0 }

  /** Messages beyond this position were never sent. */
  function Bound(s: Session): int { s.maximum + if s.phase.Counted? then 1 else 0 }

  /** While connected: the books balance, and nothing waits while there is quota. */
  ghost predicate InStep(s: Session) {
    && s.quota + LiveCount(s.out) == s.maximum + Debt(s.phase)
    && (s.quota <= Slack(s.phase) || LiveCount(s.out) == |s.out|)
  }

  /** While down, publishes may have been marked live without taking quota. */
  ghost predicate Ahead(s: Session) {
    && s.quota + LiveCount(s.out) >= s.maximum + Debt(s.phase)
    && LiveCount(s.out) + Lag(s.phase) >= Min(s.maximum, |s.out|)
  }

  predicate Released(m: Message) { m.state in {WaitForPubcomp, ResendPubrel} }

  predicate DistinctMids(out: seq<Message>) {
    forall i, j | 0 <= i < j < |out| :: out[i].mid != out[j].mid
  }

  predicate OrderedIds(s: Session) {
    && (forall i, j | 0 <= i < j < |s.out| :: s.out[i].id < s.out[j].id)
    && (forall i | 0 <= i < |s.out| :: s.out[i].id < s.accepted)
  }

  ghost predicate ReleasedBelow(s: Session) {
    forall i | 0 <= i < |s.out| && Released(s.out[i]) :: i < Bound(s)
  }

  ghost predicate CountedKnown(s: Session) {
    s.phase.Counted? ==>
      && var j := Find(s.out, s.phase.mid);
      && j < |s.out| && j < Bound(s)
      && s.out[j].qos == s.phase.qos && Live(s.out[j])
      && (s.state != Down ==> forall a | a in s.awaiting :: a.mid != s.phase.mid)
  }

  /** The message is in flight and retry does not send it again. */
  predicate JustSent(m: Message) { m.state in {WaitForPuback, WaitForPubrec} }

  /** Some listed message is the one this acknowledgement is about. */
  ghost predicate Known(s: Session, a: Ack) {
    exists j :: 0 <= j < |s.out| && Answers(a, s.out[j]) && (s.state != Active ==> JustSent(s.out[j]))
  }

  /** Nothing is sent twice on a connection, and what was sent is still listed. */
  ghost predicate AwaitingKnown(s: Session) {
    && !s.twice
    && (s.state != Down ==> forall a | a in s.awaiting :: Known(s, a))
  }

  predicate Listed(s: Session) {
    OwnStates(s.out) && DistinctMids(s.out) && OrderedIds(s)
  }

  ghost predicate Inv(s: Session) {
    && Listed(s)
    && Shape(s.out, LiveCount(s.out))
    && s.quota <= s.maximum
    && (if s.state == Down then Ahead(s) else InStep(s))
    && ReleasedBelow(s)
    && CountedKnown(s)
    && AwaitingKnown(s)
  }

  // ---------------------------------------------------------------- list lemmas

  lemma {:induction false} FindSame(a: seq<Message>, b: seq<Message>, mid: Mid)
    requires SameList(a, b)
    ensures Find(a, mid) == Find(b, mid)
  {
  }

  lemma FindAt(out: seq<Message>, mid: Mid, j: nat)
    requires DistinctMids(out) && j < |out| && out[j].mid == mid
    ensures Find(out, mid) == j
  {
  }

  lemma UpReleasedBelow(s: Session)
    requires Shape(s.out, LiveCount(s.out)) && InStep(s)
    ensures ReleasedBelow(s)
  {
  }
}
