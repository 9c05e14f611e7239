/**
 * `MyServerProtocol` of backend/eupnea.py: one websocket subscriber, with
 * the two fields `is_connected` and `last_sent_data`. `send_updates` sends
 * `data_cache` only when it differs from what this subscriber was last sent.
 *
 * The transport state `self.state == STATE_OPEN` is the parameter `open`;
 * a sent message is the cache it serialises, and the reactor's
 * `callLater(2, self.send_updates)` is the flag `rescheduled`.
 */
module EupneaServer {
  import opened Wrappers
  import opened EupneaBackend

  /** The subscriber's fields; `lastSent` is `None` until the first send. */
  datatype Subscriber = Subscriber(isConnected: bool, lastSent: Option<Cache>)

  const Initial := Subscriber(false, None)

  /** What one call of `send_updates` does: the new fields, the message sent if any, and whether it polls again. */
  datatype SendOutcome = SendOutcome(next: Subscriber, sent: Option<Cache>, rescheduled: bool)

  /** `send_updates` (lines 150-163). */
  function Send(s: Subscriber, cache: Cache, open: bool): (r: SendOutcome)
    ensures r.sent.Some? <==> s.isConnected && open && s.lastSent != Some(cache)
    ensures r.sent.Some? ==> r.sent.value == cache && r.next == Subscriber(true, Some(cache))
    ensures r.sent.None? ==> r.next == s
    ensures r.rescheduled <==> s.isConnected
  {
    if !s.isConnected then SendOutcome(s, None, false)
    else if open && s.lastSent != Some(cache) then SendOutcome(s.(lastSent := Some(cache)), Some(cache), true)
    else SendOutcome(s, None, true)
  }

  /** Right after a send on an open connection, the same cache is not sent again, whatever the transport state. */
  lemma RepeatIsSilent(s: Subscriber, cache: Cache, open: bool)
    ensures Send(Send(s, cache, true).next, cache, open).sent == None
  {
  }

  /** The events a subscriber sees: `onOpen`, `onClose`, and the periodic `send_updates`. */
  datatype Event = Opened | Closed | Update(cache: Cache, open: bool)

  /** The effect of one event on the fields, and the message it sends. */
  function Apply(s: Subscriber, ev: Event): (r: (Subscriber, Option<Cache>))
    ensures r.1.Some? ==> ev.Update? && r.1.value == ev.cache && s.isConnected && s.lastSent != r.1 && r.0.lastSent == r.1
    ensures r.1.None? ==> r.0.lastSent == s.lastSent
    ensures r.0.isConnected <==> ev.Opened? || (s.isConnected && !ev.Closed?)
  {
    match ev
    case Opened => (s.(isConnected := true), None)
    case Closed => (s.(isConnected := false), None)
    case Update(cache, open) =>
      var o := Send(s, cache, open);
      (o.next, o.sent)
  }

  /** A run of events: the final fields and the messages sent, in order. */
  function Run(s: Subscriber, evs: seq<Event>): (r: (Subscriber, seq<Cache>))
    ensures |r.1| <= |evs|
    ensures forall m :: m in r.1 ==> exists i :: 0 <= i < |evs| && evs[i] == Update(m, true)
    decreases |evs|
  {
    if evs == [] then (s, [])
    else
      var (s1, m) := Apply(s, evs[0]);
      var (s2, rest) := Run(s1, evs[1..]);
      (s2, (if m.Some? then [m.value] else []) + rest)
  }

  predicate HasOpen(evs: seq<Event>) {
    exists i :: 0 <= i < |evs| && evs[i].Opened?
  }

  /** After `onClose`, nothing is sent until the connection is opened again. */
  lemma {:induction false} ClosedIsSilent(s: Subscriber, evs: seq<Event>)
    requires !s.isConnected && !HasOpen(evs)
    ensures Run(s, evs).1 == []
    ensures !Run(s, evs).0.isConnected
    decreases |evs|
  {
    if evs != [] {
      assert !evs[0].Opened?;
      var (s1, m) := Apply(s, evs[0]);
      assert !HasOpen(evs[1..]) by {
        forall i | 0 <= i < |evs[1..]| ensures !evs[1..][i].Opened? {
          assert evs[1..][i] == evs[i + 1];
        }
      }
      ClosedIsSilent(s1, evs[1..]);
    }
  }

  /** No two consecutive messages are equal, and the last one sent is the one remembered. */
  predicate ChangesOnly(s: Subscriber, msgs: seq<Cache>) {
    && (forall i :: 0 <= i < |msgs| - 1 ==> msgs[i] != msgs[i + 1])
    && (msgs != [] ==> s.lastSent != Some(msgs[0]))
  }

  /**
   * Every message a subscriber is sent differs from the one before it, also
   * across a close and a reopen, and the first differs from what it had
   * been sent before the run.
   */
  lemma {:induction false} RunSendsChangesOnly(s: Subscriber, evs: seq<Event>)
    ensures ChangesOnly(s, Run(s, evs).1)
    ensures var (t, msgs) := Run(s, evs);
      && (msgs != [] ==> t.lastSent == Some(msgs[|msgs| - 1]))
      && (msgs == [] ==> t.lastSent == s.lastSent)
    decreases |evs|
  {
    if evs != [] {
      var (s1, m) := Apply(s, evs[0]);
      RunSendsChangesOnly(s1, evs[1..]);
      var (t, rest) := Run(s1, evs[1..]);
      if m.Some? {
        assert s1.lastSent == Some(m.value);
        assert rest != [] ==> rest[0] != m.value;
        assert Run(s, evs).1 == [m.value] + rest;
      } else {
        assert s1.lastSent == s.lastSent;
      }
    }
  }

  /** A freshly opened subscriber is sent the cache at its first update on an open connection. */
  lemma FirstUpdateSends(cache: Cache)
    ensures Run(Initial, [Opened, Update(cache, true)]).1 == [cache]
  {
    var evs := [Opened, Update(cache, true)];
    var s1 := Subscriber(true, None);
    assert Apply(Initial, Opened) == (s1, None);
    assert evs[1..] == [Update(cache, true)];
    var s2 := Subscriber(true, Some(cache));
    assert Apply(s1, Update(cache, true)) == (s2, Some(cache));
    assert [Update(cache, true)][1..] == [];
    assert Run(s2, []) == (s2, []);
    assert Run(s1, [Update(cache, true)]) == (s2, [cache] + []);
  }

  /** The protocol object, whose fields the callbacks update in place. */
  class ServerProtocol {
    var isConnected: bool
    var lastSentData: Option<Cache>

    function State(): Subscriber
      reads this
    {
      Subscriber(isConnected, lastSentData)
    }

    /** Lines 137-140. */
    constructor ()
      ensures State() == Initial
    {
      isConnected := false;
      lastSentData := None;
    }

    /** `onOpen` (lines 145-148): connected. */
    method OnOpen()
      modifies this
      ensures State() == Apply(old(State()), Opened).0
    {
      isConnected := true;
    }

    /** `send_updates` (lines 150-163): `lastSentData` takes a copy of the cache it sent. */
    method SendUpdates(cache: Cache, open: bool) returns (sent: Option<Cache>, rescheduled: bool)
      modifies this
      ensures SendOutcome(State(), sent, rescheduled) == Send(old(State()), cache, open)
    {
      if !isConnected {
        return None, false;
      }
      sent := None;
      if open {
        if cache != lastSentData.GetOr(map[]) || lastSentData.None? {
          sent := Some(cache);
          lastSentData := Some(cache);
        }
      }
      rescheduled := true;
    }

    /** `onClose` (lines 167-169). */
    method OnClose()
      modifies this
      ensures State() == Apply(old(State()), Closed).0
    {
      isConnected := false;
    }
  }
}
