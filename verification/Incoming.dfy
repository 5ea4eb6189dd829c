/**
 The receiving half of a client session: QoS 2 messages held back until their PUBREL, the
 receive quota, and what the application is handed.
 */
module Incoming {
  import opened Basics

  /** A message waiting for PUBREL; `id` numbers the QoS 2 PUBLISH packets taken in. */
  datatype Held = Held(id: nat, mid: Mid, qos: Qos)

  /**
   `version5` is the protocol of the session.  `received` counts the QoS 2 PUBLISH packets taken
   in, `delivered` lists those handed to on_message, `lost` those removed because the PUBCOMP
   could not be sent, `refused` counts the PUBLISH packets refused for lack of quota.
   */
  datatype Inbox = Inbox(
    version5: bool,
    inflight: seq<Held>,
    quota: nat,
    maximum: nat,
    queueLen: int,
    received: nat,
    delivered: seq<nat>,
    lost: seq<nat>,
    refused: nat)

  function Fresh(version5: bool, maximum: nat): Inbox {
    Inbox(version5, [], maximum, maximum, 0, 0, [], [], 0)
  }

  datatype Event =
    | PublishIn(mid: Mid, qos: Qos)
    | PubrelIn(mid: Mid, sent: bool)  // `sent`: the PUBCOMP could be sent
    | Reset                           // message__reconnect_reset, at reconnect and at CONNACK

  function Raise(s: Inbox): Inbox { if s.quota < s.maximum then s.(quota := s.quota + 1) else s }

  function Lower(s: Inbox): Inbox { if s.quota > 0 then s.(quota := s.quota - 1) else s }

  predicate Refuses(s: Inbox) { s.version5 && s.quota == 0 }

  function TakePublish(s: Inbox, mid: Mid, qos: Qos): Inbox {
    if Refuses(s) then s.(refused := s.refused + 1)
    else if qos == 1 then Raise(Lower(s))
    else
      var l := Lower(s);
      l.(inflight := s.inflight + [Held(s.received, mid, 2)],
         queueLen := s.queueLen + 1,
         received := s.received + 1)
  }

  /** Position of the first held message with this packet id, or the length of the list. */
  function Find(held: seq<Held>, mid: Mid): (j: nat)
    ensures j <= |held|
    ensures j < |held| ==> held[j].mid == mid
    ensures forall i | 0 <= i < j :: held[i].mid != mid
  {
    if held == [] then 0 else if held[0].mid == mid then 0 else 1 + Find(held[1..], mid)
  }

  function TakePubrel(s: Inbox, mid: Mid, sent: bool): Inbox {
    var r := Raise(s);
    var j := Find(s.inflight, mid);
    if j == |s.inflight| || s.inflight[j].qos != 2 then r
    else
      var t := r.(inflight := Without(s.inflight, j), queueLen := s.queueLen - 1);
      if sent then t.(delivered := s.delivered + [s.inflight[j].id])
      else t.(lost := s.lost + [s.inflight[j].id])
  }

  function Kept(held: seq<Held>): seq<Held> {
    if held == [] then []
    else (if held[0].qos == 2 then [held[0]] else []) + Kept(held[1..])
  }

  function ResetQuota(s: Inbox): Inbox {
    s.(inflight := Kept(s.inflight),
       quota := s.maximum - Min(|Kept(s.inflight)|, s.maximum),
       queueLen := |s.inflight|)
  }

  function Step(s: Inbox, e: Event): Inbox {
    match e
    case PublishIn(mid, qos) => TakePublish(s, mid, qos)
    case PubrelIn(mid, sent) => TakePubrel(s, mid, sent)
    case Reset => ResetQuota(s)
  }

  function Run(s: Inbox, es: seq<Event>): Inbox
    decreases |es|
  {
    if es == [] then s else Run(Step(s, es[0]), es[1..])
  }

  // ---------------------------------------------------------------- conservation

  function Ids(held: seq<Held>): seq<nat> {
    seq(|held|, i requires 0 <= i < |held| => held[i].id)
  }

  /** Every QoS 2 PUBLISH taken in is delivered, lost or held, once. */
  ghost predicate Conserved(s: Inbox) {
    multiset(s.delivered) + multiset(s.lost) + multiset(Ids(s.inflight)) == multiset(Upto(s.received))
  }

  ghost predicate Accounted(s: Inbox) {
    && Conserved(s)
    && s.queueLen == |s.inflight|
    && s.quota <= s.maximum
    && (forall h | h in s.inflight :: h.qos == 2)
  }

  lemma {:induction false} KeptAll(held: seq<Held>)
    requires forall h | h in held :: h.qos == 2
    ensures Kept(held) == held
  {
    if held != [] {
      assert held[0] in held;
      KeptAll(held[1..]);
    }
  }

  lemma AddedConserved(s: Inbox, t: Inbox, mid: Mid)
    requires Conserved(s) && t.inflight == s.inflight + [Held(s.received, mid, 2)] && t.received == s.received + 1
    requires t.delivered == s.delivered && t.lost == s.lost
    ensures Conserved(t)
  {
    assert Ids(t.inflight) == Ids(s.inflight) + [s.received];
    assert Upto(t.received) == Upto(s.received) + [s.received];
  }

  lemma PublishAccounted(s: Inbox, mid: Mid, qos: Qos)
    requires Accounted(s)
    ensures Accounted(TakePublish(s, mid, qos))
  {
    if qos == 2 && !Refuses(s) {
      AddedConserved(s, TakePublish(s, mid, qos), mid);
    }
  }

  lemma IdsWithout(held: seq<Held>, j: nat)
    requires j < |held|
    ensures multiset(Ids(Without(held, j))) + multiset{held[j].id} == multiset(Ids(held))
  {
    var ids := Ids(held);
    assert Ids(Without(held, j)) == ids[..j] + ids[j + 1..];
    assert ids == ids[..j] + [ids[j]] + ids[j + 1..];
  }

  /** One id goes from the held messages to the delivered or to the lost ones. */
  lemma Moved(delivered: seq<nat>, lost: seq<nat>, ids: multiset<nat>, id: nat)
    ensures multiset(delivered + [id]) + multiset(lost) + ids == multiset(delivered) + multiset(lost) + (ids + multiset{id})
    ensures multiset(delivered) + multiset(lost + [id]) + ids == multiset(delivered) + multiset(lost) + (ids + multiset{id})
  {
    assert multiset(delivered + [id]) == multiset(delivered) + multiset{id};
    assert multiset(lost + [id]) == multiset(lost) + multiset{id};
  }

  lemma WithoutKeeps(held: seq<Held>, j: nat)
    requires j < |held| && forall h | h in held :: h.qos == 2
    ensures forall h | h in Without(held, j) :: h.qos == 2
  {
  }

  /** The message at j has left the list for the delivered or the lost ones. */
  predicate TakenOut(s: Inbox, t: Inbox, j: nat, sent: bool) {
    && j < |s.inflight| && t.inflight == Without(s.inflight, j) && t.received == s.received
    && t.delivered == (if sent then s.delivered + [s.inflight[j].id] else s.delivered)
    && t.lost == (if sent then s.lost else s.lost + [s.inflight[j].id])
  }

  lemma TakenOutConserved(s: Inbox, t: Inbox, j: nat, sent: bool)
    requires Conserved(s) && TakenOut(s, t, j, sent)
    ensures Conserved(t)
  {
    IdsWithout(s.inflight, j);
    Moved(s.delivered, s.lost, multiset(Ids(t.inflight)), s.inflight[j].id);
  }

  lemma PubrelAccounted(s: Inbox, mid: Mid, sent: bool)
    requires Accounted(s)
    ensures Accounted(TakePubrel(s, mid, sent))
  {
    var j := Find(s.inflight, mid);
    if j < |s.inflight| {
      assert s.inflight[j] in s.inflight;
      WithoutKeeps(s.inflight, j);
      TakenOutConserved(s, TakePubrel(s, mid, sent), j, sent);
    }
  }

  lemma StepAccounted(s: Inbox, e: Event)
    requires Accounted(s)
    ensures Accounted(Step(s, e))
  {
    match e
    case PublishIn(mid, qos) => PublishAccounted(s, mid, qos);
    case PubrelIn(mid, sent) => PubrelAccounted(s, mid, sent);
    case Reset => KeptAll(s.inflight);
  }

  lemma {:induction false} RunAccounted(s: Inbox, es: seq<Event>)
    requires Accounted(s)
    ensures Accounted(Run(s, es))
    decreases |es|
  {
    if es != [] {
      StepAccounted(s, es[0]);
      RunAccounted(Step(s, es[0]), es[1..]);
    }
  }

  predicate AllSent(es: seq<Event>) {
    forall i | 0 <= i < |es| && es[i].PubrelIn? :: es[i].sent
  }

  lemma {:induction false} NothingLost(s: Inbox, es: seq<Event>)
    requires AllSent(es)
    ensures Run(s, es).lost == s.lost
    decreases |es|
  {
    if es != [] {
      assert es[0].PubrelIn? ==> es[0].sent;
      NothingLost(Step(s, es[0]), es[1..]);
    }
  }

  /**
   Every QoS 2 PUBLISH taken in is held, was delivered, or was lost to a PUBCOMP that could not
   be sent, and only one of these, once; if all PUBCOMPs were sent, none is lost.
   */
  lemma ReceivedIsConserved(version5: bool, maximum: nat, es: seq<Event>)
    ensures
      var s := Run(Fresh(version5, maximum), es);
      && s.received == |s.delivered| + |s.lost| + |s.inflight|
      && (AllSent(es) ==> s.received == |s.delivered| + |s.inflight|)
      && forall n: nat | n < s.received ::
           multiset(s.delivered)[n] + multiset(s.lost)[n] + multiset(Ids(s.inflight))[n] == 1
  {
    var s := Run(Fresh(version5, maximum), es);
    assert Upto(0) == [];
    RunAccounted(Fresh(version5, maximum), es);
    var all := multiset(s.delivered) + multiset(s.lost) + multiset(Ids(s.inflight));
    assert |all| == |multiset(Upto(s.received))|;
    if AllSent(es) { NothingLost(Fresh(version5, maximum), es); }
    forall n: nat | n < s.received
      ensures multiset(s.delivered)[n] + multiset(s.lost)[n] + multiset(Ids(s.inflight))[n] == 1
    {
      UptoOnce(s.received, n);
    }
  }

  // ---------------------------------------------------------------- exactly once

  /**
   The reference receiver: a map from packet id to the one message waiting under it.  The first
   PUBREL takes the message out, and hands it over if its PUBCOMP can be sent.
   */
  datatype Reference = Reference(waiting: map<Mid, nat>, received: nat, delivered: seq<nat>, lost: seq<nat>)

  const EMPTY := Reference(map[], 0, [], [])

  function RefStep(r: Reference, e: Event): Reference {
    match e
    case PublishIn(mid, qos) =>
      if qos == 1 || mid in r.waiting then r
      else r.(waiting := r.waiting[mid := r.received], received := r.received + 1)
    case PubrelIn(mid, sent) =>
      if mid !in r.waiting then r
      else if sent then r.(waiting := r.waiting - {mid}, delivered := r.delivered + [r.waiting[mid]])
      else r.(waiting := r.waiting - {mid}, lost := r.lost + [r.waiting[mid]])
    case Reset => r
  }

  function RefRun(r: Reference, es: seq<Event>): Reference
    decreases |es|
  {
    if es == [] then r else RefRun(RefStep(r, es[0]), es[1..])
  }

  predicate DistinctMids(held: seq<Held>) {
    forall i, j | 0 <= i < j < |held| :: held[i].mid != held[j].mid
  }

  ghost predicate Covers(held: seq<Held>, waiting: map<Mid, nat>) {
    forall m: Mid | m in waiting :: exists i :: 0 <= i < |held| && held[i].mid == m
  }

  /** The list holds exactly the messages of the map, each packet id once. */
  ghost predicate Agrees(s: Inbox, r: Reference) {
    && (forall h | h in s.inflight :: h.qos == 2 && h.mid in r.waiting && r.waiting[h.mid] == h.id)
    && DistinctMids(s.inflight)
    && Covers(s.inflight, r.waiting)
    && s.received == r.received
    && s.delivered == r.delivered && s.lost == r.lost
  }

  predicate Awaited(s: Inbox, mid: Mid) { Find(s.inflight, mid) < |s.inflight| }

  predicate Refused(s: Inbox, e: Event) { e.PublishIn? && Refuses(s) }

  /** A packet id is not taken in again while it waits for PUBREL. */
  predicate Clean(s: Inbox, e: Event) {
    e.PublishIn? && e.qos == 2 && !Refuses(s) ==> !Awaited(s, e.mid)
  }

  predicate CleanRun(s: Inbox, es: seq<Event>)
    decreases |es|
  {
    es == [] || (Clean(s, es[0]) && CleanRun(Step(s, es[0]), es[1..]))
  }

  /** The events of a run without the PUBLISH packets refused for lack of quota. */
  function TakenIn(s: Inbox, es: seq<Event>): seq<Event>
    decreases |es|
  {
    if es == [] then []
    else (if Refused(s, es[0]) then [] else [es[0]]) + TakenIn(Step(s, es[0]), es[1..])
  }

  lemma AddedCovers(held: seq<Held>, waiting: map<Mid, nat>, h: Held, id: nat)
    requires Covers(held, waiting)
    ensures Covers(held + [h], waiting[h.mid := id])
  {
    var more, after := held + [h], waiting[h.mid := id];
    forall m: Mid | m in after
      ensures exists i :: 0 <= i < |more| && more[i].mid == m
    {
      if m == h.mid {
        assert more[|held|].mid == m;
      } else {
        var i :| 0 <= i < |held| && held[i].mid == m;
        assert more[i].mid == m;
      }
    }
  }

  lemma AgreesPublish(s: Inbox, r: Reference, mid: Mid, qos: Qos)
    requires Agrees(s, r) && !Refuses(s) && (qos == 2 ==> !Awaited(s, mid))
    ensures Agrees(TakePublish(s, mid, qos), RefStep(r, PublishIn(mid, qos)))
  {
    if qos == 2 {
      assert mid !in r.waiting;
      AddedCovers(s.inflight, r.waiting, Held(s.received, mid, 2), s.received);
    }
  }

  lemma WithoutAt(held: seq<Held>, j: nat)
    requires j < |held|
    ensures forall i | 0 <= i < |held| - 1 :: Without(held, j)[i] == held[if i < j then i else i + 1]
  {
  }

  lemma WithoutDistinct(held: seq<Held>, j: nat)
    requires DistinctMids(held) && j < |held|
    ensures DistinctMids(Without(held, j))
    ensures forall h | h in Without(held, j) :: h in held && h.mid != held[j].mid
  {
    WithoutAt(held, j);
  }

  lemma WithoutCovers(held: seq<Held>, waiting: map<Mid, nat>, j: nat)
    requires Covers(held, waiting) && j < |held|
    ensures Covers(Without(held, j), waiting - {held[j].mid})
  {
    var t := Without(held, j);
    forall m: Mid | m in waiting && m != held[j].mid
      ensures exists i :: 0 <= i < |t| && t[i].mid == m
    {
      var i :| 0 <= i < |held| && held[i].mid == m;
      assert t[if i < j then i else i - 1].mid == m;
    }
  }

  lemma AgreesTakenOut(s: Inbox, t: Inbox, r: Reference, j: nat, sent: bool)
    requires Agrees(s, r) && TakenOut(s, t, j, sent)
    ensures s.inflight[j].mid in r.waiting
    ensures Agrees(t, RefStep(r, PubrelIn(s.inflight[j].mid, sent)))
  {
    assert s.inflight[j] in s.inflight;
    WithoutDistinct(s.inflight, j);
    WithoutCovers(s.inflight, r.waiting, j);
  }

  lemma AgreesPubrel(s: Inbox, r: Reference, mid: Mid, sent: bool)
    requires Agrees(s, r)
    ensures Agrees(TakePubrel(s, mid, sent), RefStep(r, PubrelIn(mid, sent)))
  {
    var j := Find(s.inflight, mid);
    if j < |s.inflight| {
      assert s.inflight[j] in s.inflight;
      AgreesTakenOut(s, TakePubrel(s, mid, sent), r, j, sent);
    } else {
      assert mid !in r.waiting;
    }
  }

  lemma AgreesStep(s: Inbox, r: Reference, e: Event)
    requires Agrees(s, r) && Clean(s, e) && !Refused(s, e)
    ensures Agrees(Step(s, e), RefStep(r, e))
  {
    match e
    case PublishIn(mid, qos) => AgreesPublish(s, r, mid, qos);
    case PubrelIn(mid, sent) => AgreesPubrel(s, r, mid, sent);
    case Reset => KeptAll(s.inflight);
  }

  lemma {:induction false} AgreesRun(s: Inbox, r: Reference, es: seq<Event>)
    requires Agrees(s, r) && CleanRun(s, es)
    ensures Agrees(Run(s, es), RefRun(r, TakenIn(s, es)))
    decreases |es|
  {
    if es != [] {
      var s1, rest := Step(s, es[0]), TakenIn(Step(s, es[0]), es[1..]);
      if Refused(s, es[0]) {
        AgreesRun(s1, r, es[1..]);
        assert [] + rest == rest;
      } else {
        AgreesStep(s, r, es[0]);
        AgreesRun(s1, RefStep(r, es[0]), es[1..]);
        assert ([es[0]] + rest)[1..] == rest;
      }
    }
  }

  /**
   If no packet id is taken in again while it waits for PUBREL, the application is handed exactly
   what the reference receiver hands out for the packets that were not refused, in the same order:
   each message once, at its first PUBREL, however often that is repeated, across any number of
   resets, refusals and failed PUBCOMPs.
   */
  lemma DeliveredExactlyOnce(version5: bool, maximum: nat, es: seq<Event>)
    requires CleanRun(Fresh(version5, maximum), es)
    ensures
      var s := Run(Fresh(version5, maximum), es);
      var r := RefRun(EMPTY, TakenIn(Fresh(version5, maximum), es));
      s.delivered == r.delivered && s.lost == r.lost
  {
    AgreesRun(Fresh(version5, maximum), EMPTY, es);
  }

  /** The repeated PUBLISH, and the two PUBRELs, for the code and for the reference receiver. */
  function Again(mid: Mid): seq<Event> { [PublishIn(mid, 2), PubrelIn(mid, true), PubrelIn(mid, true)] }

  lemma RunAgain(s: Inbox, mid: Mid)
    ensures Run(s, Again(mid)) == Step(Step(Step(s, PublishIn(mid, 2)), PubrelIn(mid, true)), PubrelIn(mid, true))
  {
    var es := Again(mid);
    assert es[1..] == [es[1], es[2]] && es[1..][1..] == [es[2]] && es[1..][1..][1..] == [];
    assert Run(s, es) == Run(Step(s, es[0]), es[1..]);
    assert Run(Step(s, es[0]), es[1..]) == Run(Step(Step(s, es[0]), es[1]), es[1..][1..]);
  }

  lemma RefRunAgain(r: Reference, mid: Mid)
    requires mid in r.waiting
    ensures |RefRun(r, Again(mid)).delivered| == |r.delivered| + 1
  {
    var es := Again(mid);
    assert es[1..] == [es[1], es[2]] && es[1..][1..] == [es[2]] && es[1..][1..][1..] == [];
    var r1 := RefStep(r, es[0]);
    var r2 := RefStep(r1, es[1]);
    assert RefStep(r2, es[2]) == r2;
    assert RefRun(r, es) == RefRun(r1, es[1..]) == RefRun(r2, es[1..][1..]) == r2;
  }

  predicate AllQos2(held: seq<Held>) { forall i | 0 <= i < |held| :: held[i].qos == 2 }

  /** A PUBREL for a packet id that is waiting hands over its first message. */
  lemma PubrelDelivers(s: Inbox, mid: Mid)
    requires AllQos2(s.inflight) && Awaited(s, mid)
    ensures
      var t := Step(s, PubrelIn(mid, true));
      && t.inflight == Without(s.inflight, Find(s.inflight, mid)) && AllQos2(t.inflight)
      && |t.delivered| == |s.delivered| + 1
  {
    var j := Find(s.inflight, mid);
    assert forall i | 0 <= i < |s.inflight| - 1 :: Without(s.inflight, j)[i] == s.inflight[if i < j then i else i + 1];
  }

  lemma TwoDeliveries(s: Inbox, mid: Mid)
    requires AllQos2(s.inflight) && !Refuses(s) && Awaited(s, mid)
    ensures |Run(s, Again(mid)).delivered| == |s.delivered| + 2
  {
    RunAgain(s, mid);
    var h := Held(s.received, mid, 2);
    var s1 := Step(s, PublishIn(mid, 2));
    FindAppend(s.inflight, h, mid);
    assert s1.inflight == s.inflight + [h];
    PubrelDelivers(s1, mid);
    var s2 := Step(s1, PubrelIn(mid, true));
    assert s2.inflight[|s2.inflight| - 1] == h;
    assert Awaited(s2, mid);
    PubrelDelivers(s2, mid);
  }

  /**
   The packet id condition is needed: if a PUBLISH comes again under a packet id that is waiting,
   two PUBRELs hand the application one message more than the reference receiver does.
   */
  lemma ReusedPacketIdDeliversTwice(s: Inbox, r: Reference, mid: Mid)
    requires Agrees(s, r) && !Refuses(s) && Awaited(s, mid)
    ensures |Run(s, Again(mid)).delivered| == |RefRun(r, Again(mid)).delivered| + 1
  {
    TwoDeliveries(s, mid);
    RefRunAgain(r, mid);
  }

  lemma {:induction false} FindAppend(held: seq<Held>, h: Held, mid: Mid)
    requires Find(held, mid) < |held|
    ensures Find(held + [h], mid) == Find(held, mid)
  {
    if held[0].mid != mid {
      assert (held + [h])[1..] == held[1..] + [h];
      FindAppend(held[1..], h, mid);
    }
  }

  // ---------------------------------------------------------------- receive quota

  /** Enough quota is left for what the maximum still allows. */
  predicate Roomy(s: Inbox) { s.quota <= s.maximum <= s.quota + |s.inflight| }

  lemma RoomyPublish(s: Inbox, mid: Mid, qos: Qos)
    requires Roomy(s)
    ensures Roomy(TakePublish(s, mid, qos)) && TakePublish(s, mid, qos).maximum == s.maximum
  {
  }

  lemma RoomyPubrel(s: Inbox, mid: Mid, sent: bool)
    requires Roomy(s)
    ensures Roomy(TakePubrel(s, mid, sent)) && TakePubrel(s, mid, sent).maximum == s.maximum
  {
  }

  lemma RoomyStep(s: Inbox, e: Event)
    requires Accounted(s) && Roomy(s)
    ensures Roomy(Step(s, e)) && Step(s, e).maximum == s.maximum
  {
    match e
    case PublishIn(mid, qos) => RoomyPublish(s, mid, qos);
    case PubrelIn(mid, sent) => RoomyPubrel(s, mid, sent);
    case Reset => KeptAll(s.inflight);
  }

  lemma {:induction false} RoomyRun(s: Inbox, es: seq<Event>)
    requires Accounted(s) && Roomy(s)
    ensures Accounted(Run(s, es)) && Roomy(Run(s, es)) && Run(s, es).maximum == s.maximum
    decreases |es|
  {
    if es != [] {
      StepAccounted(s, es[0]);
      RoomyStep(s, es[0]);
      RoomyRun(Step(s, es[0]), es[1..]);
    }
  }

  /** A PUBLISH is refused only if at least `maximum` messages are waiting for PUBREL. */
  lemma RefusedOnlyWhenFull(version5: bool, maximum: nat, es: seq<Event>)
    ensures
      var s := Run(Fresh(version5, maximum), es);
      Refuses(s) ==> |s.inflight| >= maximum
  {
    assert Upto(0) == [];
    RoomyRun(Fresh(version5, maximum), es);
  }

  /** Every PUBREL is about a message that is waiting. */
  predicate KnownPubrels(s: Inbox, es: seq<Event>)
    decreases |es|
  {
    es == [] ||
    ((es[0].PubrelIn? ==> Awaited(s, es[0].mid)) && KnownPubrels(Step(s, es[0]), es[1..]))
  }

  /** A PUBREL keeps quota and waiting messages balanced exactly if its message is waiting. */
  lemma PubrelBalances(s: Inbox, mid: Mid, sent: bool)
    requires Accounted(s) && s.quota + |s.inflight| == s.maximum && s.quota < s.maximum
    ensures
      var t := TakePubrel(s, mid, sent);
      t.quota + |t.inflight| == t.maximum <==> Awaited(s, mid)
  {
  }

  lemma StepExact(s: Inbox, e: Event)
    requires s.version5 && Accounted(s) && s.quota + |s.inflight| == s.maximum
    requires e.PubrelIn? ==> Awaited(s, e.mid)
    ensures
      var t := Step(s, e);
      t.version5 && t.maximum == s.maximum && t.quota + |t.inflight| == s.maximum
  {
    match e
    case PublishIn(mid, qos) =>
    case PubrelIn(mid, sent) => assert s.inflight[Find(s.inflight, mid)] in s.inflight;
    case Reset => KeptAll(s.inflight);
  }

  /** With MQTT 5 and only known PUBRELs, refusal is exact: it means `maximum` are waiting. */
  lemma {:induction false} ReceiveQuotaExact(s: Inbox, es: seq<Event>)
    requires s.version5 && Accounted(s) && s.quota + |s.inflight| == s.maximum && KnownPubrels(s, es)
    ensures
      var t := Run(s, es);
      t.quota + |t.inflight| == s.maximum && (Refuses(t) <==> |t.inflight| == s.maximum)
    decreases |es|
  {
    if es == [] {
    } else {
      StepAccounted(s, es[0]);
      StepExact(s, es[0]);
      ReceiveQuotaExact(Step(s, es[0]), es[1..]);
    }
  }
}

/** The incoming list of the client structure and the routines that edit it. */
module Receiver {
  import opened Basics
  import opened Incoming

  datatype Rc = Success | NotFound | Protocol | NoConn

  /** The loop has kept what is before i, and the rest is still to come. */
  predicate KeptSoFar(whole: seq<Held>, held: seq<Held>, i: nat)
    requires i <= |held|
  {
    Kept(whole) == held[..i] + Kept(held[i..])
  }

  /** One turn of the reset loop at position i. */
  lemma KeptStep(whole: seq<Held>, held: seq<Held>, i: nat)
    requires i < |held| && KeptSoFar(whole, held, i)
    ensures held[i].qos == 2 ==> KeptSoFar(whole, held, i + 1)
    ensures held[i].qos != 2 ==> KeptSoFar(whole, Without(held, i), i)
  {
    assert held[i..][1..] == held[i + 1..];
    assert held[..i + 1] == held[..i] + [held[i]];
    assert Without(held, i)[i..] == held[i + 1..];
    assert Without(held, i)[..i] == held[..i];
  }

  class Receiver {
    const version5: bool
    // msgs_in
    var inflight: seq<Held>
    var inflightQuota: nat
    var inflightMaximum: nat
    var queueLen: int
    var received: nat
    // what the application has seen
    ghost var delivered: seq<nat>
    ghost var lost: seq<nat>
    ghost var refused: nat

    ghost function View(): Inbox
      reads this
    {
      Inbox(version5, inflight, inflightQuota, inflightMaximum, queueLen, received, delivered, lost, refused)
    }

    constructor (version5: bool, maximum: nat)
      ensures View() == Fresh(version5, maximum)
    {
      this.version5 := version5;
      inflight, inflightQuota, inflightMaximum, queueLen, received := [], maximum, maximum, 0, 0;
      delivered, lost, refused := [], [], 0;
    }

    method IncrementReceiveQuota()
      modifies this
      ensures View() == Raise(old(View()))
    {
      if inflightQuota < inflightMaximum {
        inflightQuota := inflightQuota + 1;
      }
    }

    method DecrementReceiveQuota()
      modifies this
      ensures View() == Lower(old(View()))
    {
      if inflightQuota > 0 {
        inflightQuota := inflightQuota - 1;
      }
    }

    /** handle__publish for QoS 1 and 2, once the packet is decoded. */
    method HandlePublish(mid: Mid, qos: Qos) returns (rc: Rc)
      modifies this
      ensures View() == Step(old(View()), PublishIn(mid, qos))
      ensures rc == if Refuses(old(View())) then Protocol else Success
    {
      if version5 && inflightQuota == 0 {
        refused := refused + 1;
        return Protocol;
      }
      DecrementReceiveQuota();
      if qos == 1 {
        // send__puback
        IncrementReceiveQuota();
      } else {
        inflight := inflight + [Held(received, mid, 2)];
        queueLen := queueLen + 1;
        received := received + 1;
      }
      return Success;
    }

    /** message__remove for the incoming list. */
    method Remove(mid: Mid) returns (rc: Rc, message: Held)
      modifies this
      ensures
        var s := old(View());
        var j := Find(s.inflight, mid);
        if j == |s.inflight| then rc == NotFound && View() == s
        else if s.inflight[j].qos != 2 then rc == Protocol && View() == s
        else rc == Success && message == s.inflight[j]
             && View() == s.(inflight := Without(s.inflight, j), queueLen := s.queueLen - 1)
    {
      message := Held(0, 1, 1);
      var i := 0;
      while i < |inflight|
        invariant i <= |inflight|
        invariant forall l | 0 <= l < i :: inflight[l].mid != mid
        invariant View() == old(View())
      {
        if inflight[i].mid == mid {
          assert Find(inflight, mid) == i;
          if inflight[i].qos != 2 {
            rc := Protocol;
            return;
          }
          message := inflight[i];
          inflight := inflight[..i] + inflight[i + 1..];
          queueLen := queueLen - 1;
          rc := Success;
          return;
        }
        i := i + 1;
      }
      rc := NotFound;
    }

    /** handle__pubrel; `sent` says whether the PUBCOMP can be sent. */
    method HandlePubrel(mid: Mid, sent: bool) returns (rc: Rc)
      modifies this
      ensures View() == Step(old(View()), PubrelIn(mid, sent))
    {
      // send__pubcomp
      IncrementReceiveQuota();
      var message;
      rc, message := Remove(mid);
      if !sent {
        if rc == Success { lost := lost + [message.id]; }
        return NoConn;
      }
      if rc == Success {
        delivered := delivered + [message.id];
      } else if rc == NotFound {
        return Success;
      }
    }

    /** Incoming half of message__reconnect_reset. */
    method ReconnectReset()
      modifies this
      ensures View() == Step(old(View()), Reset)
    {
      inflightQuota := inflightMaximum;
      queueLen := 0;
      var i := 0;
      while i < |inflight|
        invariant i <= |inflight|
        invariant queueLen + |inflight| - i == |old(inflight)|
        invariant KeptSoFar(old(inflight), inflight, i)
        invariant inflightMaximum == old(inflightMaximum)
        invariant inflightQuota == inflightMaximum - Min(i, inflightMaximum)
        invariant received == old(received) && delivered == old(delivered)
        invariant lost == old(lost) && refused == old(refused)
        decreases |inflight| - i
      {
        queueLen := queueLen + 1;
        KeptStep(old(inflight), inflight, i);
        if inflight[i].qos != 2 {
          inflight := inflight[..i] + inflight[i + 1..];
        } else {
          DecrementReceiveQuota();
          i := i + 1;
        }
      }
      assert inflight[..i] == inflight && Kept(inflight[i..]) == [];
    }
  }
}
