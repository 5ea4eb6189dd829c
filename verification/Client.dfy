/**
 The client structure and the routines that walk and edit its outgoing list.  Each routine is
 proved to take the session exactly to the state its step function in Session gives.
 */
module ClientLibrary {
  import opened Basics
  import opened Session

  datatype Rc = Success | NotFound | Protocol | NoConn

  class Client {
    // msgs_out
    var inflight: seq<Message>
    var inflightQuota: nat
    var inflightMaximum: nat
    var queueLen: int
    // connection and handler
    var state: ClientState
    var phase: AckPhase
    var life: nat
    // publishes accepted so far
    var accepted: nat
    // what the network and the application have seen
    ghost var wire: seq<Wire>
    ghost var awaiting: set<Ack>
    ghost var twice: bool
    ghost var callbacks: seq<nat>

    ghost function View(): Session
      reads this
    {
      Session(inflight, inflightQuota, inflightMaximum, queueLen, state, phase, life,
              wire, awaiting, twice, accepted, callbacks)
    }

    constructor (maximum: nat)
      ensures View() == Fresh(maximum)
    {
      inflight, inflightQuota, inflightMaximum, queueLen := [], maximum, maximum, 0;
      state, phase, life, accepted := Down, Idle, 0, 0;
      wire, awaiting, twice, callbacks := [], {}, false, [];
    }

    // ---------------------------------------------------------------- sending

    /** Hand a packet to the network. */
    method SendPacket(w: Wire) returns (rc: Rc)
      modifies this`state, this`life, this`wire, this`awaiting, this`twice
      ensures View() == Send(old(View()), w)
      ensures rc == if CanSend(old(View())) then Success else NoConn
    {
      if state == Down || life == 0 {
        state := Down;
        return NoConn;
      }
      life := life - 1;
      wire := wire + [w];
      twice := twice || AckOf(w) * awaiting != {};
      awaiting := awaiting + AckOf(w);
      return Success;
    }

    method IncrementSendQuota()
      modifies this`inflightQuota
      ensures View() == RaiseQuota(old(View()))
    {
      if inflightQuota < inflightMaximum {
        inflightQuota := inflightQuota + 1;
      }
    }

    method DecrementSendQuota()
      modifies this`inflightQuota
      ensures View() == old(View()).(quota := if old(inflightQuota) > 0 then old(inflightQuota) - 1 else 0)
    {
      if inflightQuota > 0 {
        inflightQuota := inflightQuota - 1;
      }
    }

    // ---------------------------------------------------------------- the list

    /** Send the waiting message at i. */
    method ReleaseAt(i: nat) returns (rc: Rc)
      requires i < |inflight|
      modifies this`inflight, this`state, this`life, this`wire, this`awaiting, this`twice
      ensures
        var s := old(View());
        var m := InFlight(s.out[i]);
        && View() == Send(s.(out := s.out[i := m]), PublishOf(m))
        && rc == if CanSend(s) then Success else NoConn
    {
      var m := inflight[i];
      if m.qos == 1 {
        m := m.(state := WaitForPuback);
      } else if m.qos == 2 {
        m := m.(state := WaitForPubrec);
      }
      inflight := inflight[i := m];
      rc := SendPacket(WPublish(m.id, m.mid, m.qos, m.dup));
    }

    method ReleaseToInflight() returns (rc: Rc)
      modifies this
      ensures View() == Release(old(View()))
      ensures rc == Success || (rc == NoConn && state == Down)
    {
      var i := 0;
      rc := Success;
      while i < |inflight|
        invariant i <= |inflight|
        invariant rc == Success
        invariant ReleaseFrom(View(), i) == Release(old(View()))
        decreases |inflight| - i
      {
        if inflightQuota > 0 {
          if inflight[i].state == Invalid {
            rc := ReleaseAt(i);
            if rc != Success {
              return;
            }
            DecrementSendQuota();
          }
        } else {
          return Success;
        }
        i := i + 1;
      }
    }

    method QueueMessage(mid: Mid, qos: Qos) returns (rc: Rc)
      modifies this
      ensures View() == Publishing(old(View()), mid, qos)
      ensures rc == Success || (rc == NoConn && state == Down)
    {
      inflight := inflight + [Message(accepted, mid, qos, Invalid, false)];
      accepted := accepted + 1;
      queueLen := queueLen + 1;
      rc := ReleaseToInflight();
    }

    /** One turn of the reset loop. */
    method ResetAt(i: nat, updateQuotaOnly: bool)
      requires i < |inflight|
      modifies this`inflight, this`inflightQuota
      ensures inflightQuota == if old(inflightQuota) > 0 then old(inflightQuota) - 1 else 0
      ensures inflight == old(inflight)[i := ResetMessage(old(inflight)[i], old(inflightQuota) > 0, updateQuotaOnly)]
    {
      if inflightQuota != 0 {
        inflightQuota := inflightQuota - 1;
        if !updateQuotaOnly {
          if inflight[i].qos == 1 {
            inflight := inflight[i := inflight[i].(state := PublishQos1)];
          } else if inflight[i].qos == 2 {
            if inflight[i].state == WaitForPubrec {
              inflight := inflight[i := inflight[i].(state := PublishQos2)];
            } else if inflight[i].state == WaitForPubcomp {
              inflight := inflight[i := inflight[i].(state := ResendPubrel)];
            }
          }
        }
      } else {
        inflight := inflight[i := inflight[i].(state := Invalid)];
      }
    }

    /** Outgoing half of message__reconnect_reset. */
    method ReconnectReset(updateQuotaOnly: bool)
      modifies this`inflight, this`inflightQuota, this`queueLen
      ensures View() == Reset(old(View()), updateQuotaOnly)
    {
      var i := 0;
      inflightQuota := inflightMaximum;
      queueLen := 0;
      while i < |inflight|
        invariant i <= |inflight| == old(|inflight|)
        invariant queueLen == i
        invariant inflightQuota == inflightMaximum - Min(i, inflightMaximum)
        invariant forall l | 0 <= l < i ::
                    inflight[l] == ResetMessage(old(inflight)[l], l < inflightMaximum, updateQuotaOnly)
        invariant forall l | i <= l < |inflight| :: inflight[l] == old(inflight)[l]
      {
        queueLen := queueLen + 1;
        ResetAt(i, updateQuotaOnly);
        i := i + 1;
      }
      assert inflight == Reset(old(View()), updateQuotaOnly).out;
    }

    /** One turn of the retry loop. */
    method RetryAt(i: nat)
      requires i < |inflight|
      modifies this
      ensures View() == Retry(old(View()), i)
    {
      var m := inflight[i].(dup := true);
      match m.state {
        case PublishQos1 =>
          inflight := inflight[i := m];
          var _ := SendPacket(WPublish(m.id, m.mid, m.qos, m.dup));
        case PublishQos2 =>
          inflight := inflight[i := m];
          var _ := SendPacket(WPublish(m.id, m.mid, m.qos, m.dup));
        case WaitForPubrel =>
          inflight := inflight[i := m];
          var _ := SendPacket(WPubrec(m.mid));
        case ResendPubrel =>
          inflight := inflight[i := m];
          var _ := SendPacket(WPubrel(m.mid));
        case WaitForPubcomp =>
          inflight := inflight[i := m];
          var _ := SendPacket(WPubrel(m.mid));
        case _ =>
      }
    }

    method RetryCheck()
      modifies this
      ensures View() == RetryFrom(old(View()), 0)
    {
      var i := 0;
      while i < |inflight|
        invariant i <= |inflight|
        invariant RetryFrom(View(), i) == RetryFrom(old(View()), 0)
        decreases |inflight| - i
      {
        RetryAt(i);
        i := i + 1;
      }
    }

    /** message__delete: remove the first message with this packet id and report it. */
    method Delete(mid: Mid, qos: Qos) returns (rc: Rc)
      modifies this`inflight, this`queueLen, this`callbacks
      ensures
        var s := old(View());
        var j := Find(s.out, mid);
        if j == |s.out| then rc == NotFound && View() == s
        else if s.out[j].qos != qos then rc == Protocol && View() == s
        else rc == Success && View() == Drop(s, j)
    {
      var i := 0;
      while i < |inflight|
        invariant i <= |inflight|
        invariant forall l | 0 <= l < i :: inflight[l].mid != mid
        invariant View() == old(View())
      {
        if inflight[i].mid == mid {
          FindFirst(inflight, mid, i);
          if inflight[i].qos != qos {
            return Protocol;
          }
          callbacks := callbacks + [inflight[i].id];
          inflight := inflight[..i] + inflight[i + 1..];
          queueLen := queueLen - 1;
          return Success;
        }
        i := i + 1;
      }
      return NotFound;
    }

    method OutUpdate(mid: Mid, newState: MsgState, qos: Qos) returns (rc: Rc)
      modifies this`inflight
      ensures
        var s := old(View());
        var j := Find(s.out, mid);
        if j == |s.out| then rc == NotFound && View() == s
        else if s.out[j].qos != qos then rc == Protocol && View() == s
        else rc == Success && View() == s.(out := s.out[j := s.out[j].(state := newState)])
    {
      var i := 0;
      while i < |inflight|
        invariant i <= |inflight|
        invariant forall l | 0 <= l < i :: inflight[l].mid != mid
        invariant View() == old(View())
      {
        if inflight[i].mid == mid {
          FindFirst(inflight, mid, i);
          if inflight[i].qos != qos {
            return Protocol;
          }
          inflight := inflight[i := inflight[i].(state := newState)];
          return Success;
        }
        i := i + 1;
      }
      return NotFound;
    }

    // ---------------------------------------------------------------- handlers

    /** mosquitto__reconnect, as far as the outgoing list is concerned. */
    method Reconnect(sends: nat)
      requires phase == Idle
      modifies this
      ensures View() == Step(old(View()), Event.Reconnect(sends))
    {
      ReconnectReset(false);
      state := Connecting;
      life := sends;
      awaiting := {};
    }

    /** handle__connack up to the on_connect callback; `maximum` is the receive maximum in force. */
    method HandleConnack(maximum: nat) returns (rc: Rc)
      requires phase == Idle
      modifies this
      ensures View() == Step(old(View()), Event.Connack(maximum))
    {
      if state != Connecting {
        state := Down;
        return Protocol;
      }
      inflightMaximum := maximum;
      inflightQuota := inflightMaximum;
      ReconnectReset(true);
      state := Accepted;
      return Success;
    }

    /** The rest of handle__connack for reason code 0. */
    method FinishConnack()
      requires phase == Idle
      modifies this
      ensures View() == Step(old(View()), Event.Activate)
    {
      if state == Accepted {
        state := Active;
        RetryCheck();
      } else if state == Down {
        RetryCheck();
      }
    }

    /** handle__pubackcomp, first locked section. */
    method PubackcompCount(mid: Mid, qos: Qos) returns (rc: Rc)
      requires phase == Idle
      modifies this
      ensures View() == Step(old(View()), AckCount(mid, qos))
    {
      if state != Active {
        state := Down;
        return Protocol;
      }
      IncrementSendQuota();
      phase := Counted(mid, qos);
      awaiting := awaiting - {AckFor(mid, qos)};
      return Success;
    }

    /** handle__pubackcomp, removal and callback; an error from it closes the connection. */
    method PubackcompRemove() returns (rc: Rc)
      requires phase.Counted?
      modifies this
      ensures View() == Step(old(View()), AckRemove)
    {
      var r := Delete(phase.mid, phase.qos);
      if r == Protocol {
        phase := Idle;
        state := Down;
        return r;
      }
      phase := Removed;
      return Success;
    }

    /** handle__pubackcomp, last locked section. */
    method PubackcompRelease()
      requires phase == Removed
      modifies this
      ensures View() == Step(old(View()), AckRelease)
    {
      phase := Idle;
      var _ := ReleaseToInflight();
    }

    /** handle__pubrec for a reason code below 0x80. */
    method HandlePubrec(mid: Mid) returns (rc: Rc)
      requires phase == Idle
      modifies this`inflight, this`state, this`life, this`wire, this`awaiting, this`twice
      ensures View() == Step(old(View()), PubrecOk(mid))
    {
      if state != Active {
        state := Down;
        return Protocol;
      }
      awaiting := awaiting - {Pubrec(mid)};
      ghost var s1 := View();
      ghost var j := Find(s1.out, mid);
      rc := OutUpdate(mid, WaitForPubcomp, 2);
      if rc != NotFound && rc != Success {
        state := Down;
        return;
      }
      ghost var s2 := if j < |s1.out| then s1.(out := s1.out[j := s1.out[j].(state := WaitForPubcomp)]) else s1;
      assert AcceptPubrec(old(View()), mid) == Send(s2, WPubrel(mid));
      rc := SendPacket(WPubrel(mid));
    }

    /** handle__pubrec for an error, up to and including the callback. */
    method HandlePubrecError(mid: Mid) returns (rc: Rc)
      requires phase == Idle
      modifies this`inflight, this`queueLen, this`state, this`phase, this`awaiting, this`callbacks
      ensures View() == Step(old(View()), PubrecFail(mid))
    {
      if state != Active {
        state := Down;
        return Protocol;
      }
      awaiting := awaiting - {Pubrec(mid)};
      phase := FailRemoved;
      var _ := Delete(mid, 2);
      return Success;
    }

    method PubrecErrorRelease()
      requires phase == FailRemoved
      modifies this
      ensures View() == Step(old(View()), PubrecFailRelease)
    {
      IncrementSendQuota();
      phase := Idle;
      var _ := ReleaseToInflight();
    }
  }

  lemma FindFirst(out: seq<Message>, mid: Mid, i: nat)
    requires i < |out| && out[i].mid == mid
    requires forall l | 0 <= l < i :: out[l].mid != mid
    ensures Find(out, mid) == i
  {
  }
}
