/** What the receiver of the UDP leg answers (`engine/src/nrxp/datagram.rs`, lines 411-456). */
module Refusals {
  import opened Wrappers
  import opened Bytes
  import opened KeyRatchets
  import opened Datagrams
  import opened DatagramRuns

  lemma RoutesAre(leg: Leg, s: System, epochId: byte)
    requires ValidLeg(leg) && Inv(leg, s)
    ensures var route := RouteOf(s.rx, epochId);
            && (route == ToCurrent <==> epochId == s.rxStep % 256)
            && (route == ToCandidate <==> epochId == (s.rxStep + 1) % 256)
            && (route == ToPrevious <==> s.rxStep > 0 && epochId == (s.rxStep - 1) % 256)
  {
    NeighbouringIdsDiffer(s.rxStep);
  }

  lemma RoomForRouted(leg: Leg, s: System, d: Datagram)
    requires ValidLeg(leg) && Inv(leg, s) && Defined(leg, s) && !RouteOf(s.rx, d.epochId).Nowhere?
    ensures RoomForSlot(leg, s, d)
  {
    RoutedSlot(leg, s, d.epochId);
  }

  /** A datagram is refused exactly if it changes nothing, and the refusal tells the epoch it was tried
      against: none, the previous, the current or the next one. A datagram that authenticates always holds a
      whole frame. */
  lemma RefusalsNameTheirEpoch(leg: Leg, events: seq<Event>, s: System, d: Datagram)
    requires ValidLeg(leg) && Run(leg, events, s)
    ensures Defined(leg, s)
    ensures var r := OpenDatagram(leg.ivOf, s.log, s.rx, d, leg.bits).1;
            var previous, current, next := s.rxStep > 0 && d.epochId == (s.rxStep - 1) % 256, d.epochId == s.rxStep % 256, d.epochId == (s.rxStep + 1) % 256;
            && (r.Err? <==> Step(leg, s, Deliver(d)) == s)
            && (r == Err(EpochOutOfRange) <==> !previous && !current && !next)
            && (r.Err? && current ==> r.error == CurrentFailed)
            && (r.Err? && previous ==> r.error == PreviousFailed)
            && (r.Err? && next ==> r.error == CandidateFailed)
  {
    RunInv(leg, events, s);
    RoutesAre(leg, s, d.epochId);
    hide Inv, Run, RouteOf;
    if !RouteOf(s.rx, d.epochId).Nowhere? {
      RoomForRouted(leg, s, d);
      OpensOrFails(leg, s, d);
    }
  }

  lemma OpensOrFails(leg: Leg, s: System, d: Datagram)
    requires ValidLeg(leg) && Inv(leg, s) && Defined(leg, s) && !RouteOf(s.rx, d.epochId).Nowhere? && RoomForSlot(leg, s, d)
    ensures var r := OpenDatagram(leg.ivOf, s.log, s.rx, d, leg.bits).1;
            && (r.Err? <==> Step(leg, s, Deliver(d)) == s)
            && (r.Err? ==> r.error == match RouteOf(s.rx, d.epochId)
                                      case ToCurrent => CurrentFailed
                                      case ToPrevious => PreviousFailed
                                      case _ => CandidateFailed)
  {
    if TryOpenIn(s.log, SlotFor(leg.ivOf, s.rx, d.epochId).value, d, leg.bits).1.Some? {
      DeliverySucceeds(leg, s, d);
      hide Inv, TryOpenIn, SlotFor, OpenDatagram, DeliveryOf, RouteOf;
      assert |Step(leg, s, Deliver(d)).delivered| == |s.delivered| + 1;
    } else {
      RefusalChangesNothing(leg.ivOf, s.log, s.rx, d, leg.bits);
      hide Inv, TryOpenIn, SlotFor, RouteOf;
    }
  }
}
