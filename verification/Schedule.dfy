/** When the sender of the UDP leg rekeys (`engine/src/nrxp/datagram.rs`, lines 270-319). */
module Schedules {
  import opened Bytes
  import opened Bits
  import opened Counter
  import opened Frames
  import opened KeyRatchets
  import opened Datagrams
  import opened DatagramRuns

  /** How many of these the sender sealed. */
  function Sealed(origins: seq<Origin>): nat
  {
    if origins == [] then 0
    else Sealed(origins[..|origins| - 1]) + (if origins[|origins| - 1].Honest? then 1 else 0)
  }

  lemma SealedMore(origins: seq<Origin>, o: Origin)
    ensures Sealed(origins + [o]) == Sealed(origins) + if o.Honest? then 1 else 0
  {
    assert (origins + [o])[..|origins|] == origins;
  }

  ghost predicate Numbered(rekeyAfter: nat, origins: seq<Origin>)
  {
    forall i :: 0 <= i < |origins| && origins[i].Honest? ==>
      Sealed(origins[..i]) == origins[i].step * rekeyAfter + origins[i].counter
  }

  ghost predicate OnSchedule(leg: Leg, s: System)
  {
    && Sealed(s.origins) == s.txStep * leg.rekeyAfter + s.tx.counter && s.tx.counter <= leg.rekeyAfter
    && Numbered(leg.rekeyAfter, s.origins)
  }

  lemma NumberedMore(rekeyAfter: nat, origins: seq<Origin>, o: Origin)
    requires Numbered(rekeyAfter, origins)
    requires o.Honest? ==> Sealed(origins) == o.step * rekeyAfter + o.counter
    ensures Numbered(rekeyAfter, origins + [o])
  {
    hide Sealed;
    var more := origins + [o];
    forall i | 0 <= i < |more| && more[i].Honest?
      ensures Sealed(more[..i]) == more[i].step * rekeyAfter + more[i].counter
    {
      if i < |origins| {
        assert more[..i] == origins[..i] && more[i] == origins[i];
      } else {
        assert more[..i] == origins;
      }
    }
  }

  lemma NextMultiple(q: nat, n: nat)
    ensures (q + 1) * n == q * n + n
  {}

  lemma StepOnSchedule(leg: Leg, s: System, e: Event)
    requires ValidLeg(leg) && Defined(leg, s) && OnSchedule(leg, s)
    ensures OnSchedule(leg, Step(leg, s, e))
  {
    hide OpenDatagram, SealedEntry, NextRatchet, Numbered, Sealed, DeliveryOf, RouteOf, HasRoom;
    NextMultiple(s.txStep, leg.rekeyAfter);
    var s' := Step(leg, s, e);
    match e
    case SealItem(item, aad, ct) =>
      var o := s'.origins[|s.origins|];
      SealedMore(s.origins, o);
      NumberedMore(leg.rekeyAfter, s.origins, o);
    case SealForeign(entry) =>
      SealedMore(s.origins, Foreign);
      NumberedMore(leg.rekeyAfter, s.origins, Foreign);
    case Deliver(d) =>
  }

  lemma {:induction false} RunIsOnSchedule(leg: Leg, events: seq<Event>, s: System)
    requires ValidLeg(leg) && Run(leg, events, s)
    ensures OnSchedule(leg, s)
  {
    if events == [] {
      assert Numbered(leg.rekeyAfter, []);
    } else {
      var earlier, last := events[..|events| - 1], events[|events| - 1];
      var mid :| Run(leg, earlier, mid) && Moves(leg, mid, last, s);
      hide Run, OnSchedule, Step, Defined;
      RunIsOnSchedule(leg, earlier, mid);
      StepOnSchedule(leg, mid, last);
    }
  }

  /** Rekeying happens neither early nor late: the datagram sealed after `k` others is number `k % rekeyAfter`
      of step `k / rekeyAfter`, whatever else went on in the run. */
  lemma SealingFollowsSchedule(leg: Leg, events: seq<Event>, s: System, i: nat)
    requires ValidLeg(leg) && Run(leg, events, s) && i < |s.origins| && s.origins[i].Honest?
    ensures var k := Sealed(s.origins[..i]);
            s.origins[i].step == k / leg.rekeyAfter && s.origins[i].counter == k % leg.rekeyAfter
  {
    RunInv(leg, events, s);
    RunIsOnSchedule(leg, events, s);
    CountersBelow(leg, s, i);
    hide Run, Inv, Defined, Sealed;
    var o := s.origins[i];
    ModIs(Sealed(s.origins[..i]), o.step, o.counter, leg.rekeyAfter);
  }

  lemma CountersBelow(leg: Leg, s: System, i: nat)
    requires Inv(leg, s) && i < |s.origins| && s.origins[i].Honest?
    ensures s.origins[i].counter < leg.rekeyAfter
  {
    assert HonestEntry(leg, s, i);
  }

  /** The header of the next datagram is what can be peeked at before, and it names the step the datagram
      is then sealed at. */
  lemma HeaderNamesStep(leg: Leg, s: System, item: Item, aad: bytes, ct: bytes)
    requires ValidLeg(leg) && SenderInv(leg, s) && Defined(leg, s)
    ensures var o, ready := Step(leg, s, SealItem(item, aad, ct)).origins[|s.origins|], Ready(s.tx, leg.rekeyAfter);
            && o.item == item && WireForm(leg, o, aad) == Datagram(ready.ratchet.epochId, TruncateCounter(ready.counter, leg.bits), ct, aad)
  {
    hide SealedEntry, TruncateCounter, HasRoom;
    AdvanceIsNextStep(leg.ivOf, leg.chain0, s.txStep);
  }
}
