/** Whole runs of the UDP leg: one sender, one receiver and a network that may lose, duplicate,
    reorder, replay and forge datagrams. */
module DatagramRuns {
  import opened Wrappers
  import opened Bytes
  import opened Bits
  import opened Counter
  import opened Crypto
  import opened Frames
  import opened KeyRatchets
  import opened ReplayWindows
  import opened Datagrams

  /** The parameters of one leg. */
  datatype Leg = Leg(ivOf: IvOf, chain0: Secret, rekeyAfter: u64, windowSize: nat, bits: nat)

  ghost predicate ValidLeg(leg: Leg)
  {
    && leg.rekeyAfter > 0 && leg.windowSize > 0 && 1 <= leg.bits < 64
    && leg.rekeyAfter + 2 * Pow2(leg.bits) <= U64_SIZE
  }

  /** Where an entry of the AEAD's log comes from: the sender, at a step of its chain and with a
      counter, or anybody else. The item, the associated data and the ciphertext are those of the event. */
  datatype Origin = Honest(step: nat, counter: u64, item: Item, aad: bytes, ct: bytes) | Foreign

  /** A datagram the receiver has opened: the log entry it was, the step and counter it was accepted
      at, and the frame that came out. */
  datatype Delivery = Delivery(entry: nat, step: nat, counter: u64, frame: Frame)

  /** `txStep`, `rxStep`, `origins` and `delivered` are the history of the run; the rest is state. */
  datatype System = System(
    tx: Sender, rx: Receiver, log: seq<Entry>,
    txStep: nat, rxStep: nat, origins: seq<Origin>, delivered: seq<Delivery>)

  datatype Event =
    | SealItem(item: Item, aad: bytes, ct: bytes)
    | SealForeign(entry: Entry)
    | Deliver(datagram: Datagram)

  function Start(leg: Leg): System
  {
    System(
      Sender(RatchetAt(leg.chain0, 0), 0),
      Receiver(RatchetAt(leg.chain0, 0), FreshSlot(KeysAt(leg.ivOf, leg.chain0, 0), leg.windowSize), None),
      [], 0, 0, [], [])
  }

  /** The network and its other participants may do anything but seal under this leg's own keys. */
  ghost predicate Possible(leg: Leg, e: Event)
  {
    e.SealForeign? ==> forall n :: e.entry.key != KeysAt(leg.ivOf, leg.chain0, n).key
  }

  /** The counter arithmetic the next event may need stays within 64 bits. */
  ghost predicate Defined(leg: Leg, s: System)
  {
    WellSized(s.rx, leg.bits) && s.tx.counter + 1 < U64_SIZE
  }

  ghost function Step(leg: Leg, s: System, e: Event): System
    requires Defined(leg, s)
  {
    match e
    case SealItem(item, aad, ct) =>
      var ready := Ready(s.tx, leg.rekeyAfter);
      var step := if s.tx.counter >= leg.rekeyAfter then s.txStep + 1 else s.txStep;
      s.(tx := ready.(counter := ready.counter + 1),
         log := s.log + [SealedEntry(leg.ivOf, ready, item, aad, ct)],
         txStep := step,
         origins := s.origins + [Honest(step, ready.counter, item, aad, ct)])
    case SealForeign(entry) =>
      s.(log := s.log + [entry], origins := s.origins + [Foreign])
    case Deliver(d) =>
      var (rx, result) := OpenDatagram(leg.ivOf, s.log, s.rx, d, leg.bits);
      if result.Ok? then
        s.(rx := rx,
           rxStep := if RouteOf(s.rx, d.epochId).ToCandidate? then s.rxStep + 1 else s.rxStep,
           delivered := s.delivered + [DeliveryOf(leg, s, d, result.value)])
      else
        s.(rx := rx)
  }

  function RoutedStep(s: System, epochId: byte): (n: nat)
  {
    match RouteOf(s.rx, epochId)
    case ToPrevious => if s.rxStep > 0 then s.rxStep - 1 else 0
    case ToCandidate => s.rxStep + 1
    case _ => s.rxStep
  }

  function DeliveryOf(leg: Leg, s: System, d: Datagram, frame: Frame): Delivery
    requires WellSized(s.rx, leg.bits) && !RouteOf(s.rx, d.epochId).Nowhere?
  {
    RoomForCandidate(leg.bits, s.rx.current.window);
    var slot := SlotFor(leg.ivOf, s.rx, d.epochId).value;
    var full := FullCounter(slot, d.wireCounter, leg.bits);
    var entry := FindEntry(s.log, slot.keys.key, NonceOf(slot.keys.salt, full), d.aad, d.ct);
    Delivery(if entry.Some? then entry.value else 0, RoutedStep(s, d.epochId), full, frame)
  }

  // ------------------------------------------------------------- invariant

  /** The counters accepted at one step of the chain. */
  ghost function AcceptedAt(delivered: seq<Delivery>, step: nat): set<nat>
  {
    set d | d in delivered && d.step == step :: d.counter
  }

  /** The frame that comes out for an item: its payload cut to a length that fits the header. */
  function FrameFor(item: Item): Frame
  {
    Frame(HeaderFor(ZERO_TAG, item, 0), item.payload[..|item.payload| % U16_SIZE])
  }

  ghost predicate SlotInv(leg: Leg, slot: EpochState, step: nat, delivered: seq<Delivery>)
  {
    && slot.keys == KeysAt(leg.ivOf, leg.chain0, step)
    && slot.epochId == step % 256
    && |slot.window.bits| == leg.windowSize
    && Refines(slot.window, AcceptedAt(delivered, step))
    && slot.window.highest < leg.rekeyAfter
  }

  ghost predicate SenderInv(leg: Leg, s: System)
  {
    && s.tx.ratchet == RatchetAt(leg.chain0, s.txStep)
    && s.tx.counter <= leg.rekeyAfter
  }

  ghost predicate ReceiverInv(leg: Leg, s: System)
  {
    && s.rxStep <= s.txStep
    && s.rx.ratchet == RatchetAt(leg.chain0, s.rxStep)
    && SlotInv(leg, s.rx.current, s.rxStep, s.delivered)
    && (s.rx.previous.Some? <==> s.rxStep > 0)
    && (s.rxStep > 0 ==> SlotInv(leg, s.rx.previous.value, s.rxStep - 1, s.delivered))
  }

  /** `a` was sealed before `b`: at an earlier step, or at the same one with a smaller counter. */
  ghost predicate Before(a: Origin, b: Origin)
    requires a.Honest? && b.Honest?
  {
    a.step < b.step || (a.step == b.step && a.counter < b.counter)
  }

  ghost predicate HonestEntry(leg: Leg, s: System, i: nat)
    requires i < |s.log| && |s.origins| == |s.log| && s.origins[i].Honest?
  {
    var o := s.origins[i];
    && o.counter < leg.rekeyAfter
    && (o.step < s.txStep || (o.step == s.txStep && o.counter < s.tx.counter))
    && s.log[i] == SealedEntry(leg.ivOf, Sender(RatchetAt(leg.chain0, o.step), o.counter), o.item, o.aad, o.ct)
  }

  ghost predicate LogInv(leg: Leg, s: System)
  {
    && |s.origins| == |s.log|
    && (forall i :: 0 <= i < |s.log| && s.origins[i].Honest? ==> HonestEntry(leg, s, i))
    && (forall i :: 0 <= i < |s.log| && s.origins[i].Foreign? ==>
          forall n :: s.log[i].key != KeysAt(leg.ivOf, leg.chain0, n).key)
    && (forall i, j :: 0 <= i < j < |s.log| && s.origins[i].Honest? && s.origins[j].Honest? ==>
          Before(s.origins[i], s.origins[j]))
  }

  ghost predicate GoodDelivery(s: System, d: Delivery)
  {
    && d.entry < |s.origins| && s.origins[d.entry].Honest?
    && s.origins[d.entry].step == d.step && s.origins[d.entry].counter == d.counter
    && d.frame == FrameFor(s.origins[d.entry].item)
    && d.step <= s.rxStep
  }

  ghost predicate DeliveryInv(s: System)
  {
    && (forall d :: d in s.delivered ==> GoodDelivery(s, d))
    && (forall i, j :: 0 <= i < j < |s.delivered| ==>
          s.delivered[i].step != s.delivered[j].step || s.delivered[i].counter != s.delivered[j].counter)
  }

  ghost predicate Inv(leg: Leg, s: System)
  {
    SenderInv(leg, s) && ReceiverInv(leg, s) && LogInv(leg, s) && DeliveryInv(s)
  }

  lemma InvIsDefined(leg: Leg, s: System)
    requires ValidLeg(leg) && Inv(leg, s)
    ensures Defined(leg, s)
  {}

  lemma StartInv(leg: Leg)
    requires ValidLeg(leg)
    ensures Inv(leg, Start(leg))
  {}

  // ----------------------------------------------------------- preservation

  lemma SealKeepsInv(leg: Leg, s: System, item: Item, aad: bytes, ct: bytes)
    requires ValidLeg(leg) && Inv(leg, s) && Defined(leg, s)
    ensures Inv(leg, Step(leg, s, SealItem(item, aad, ct)))
  {
    var s' := Step(leg, s, SealItem(item, aad, ct));
    AdvanceIsNextStep(leg.ivOf, leg.chain0, s.txStep);
    assert SenderInv(leg, s');
    SealKeepsLog(leg, s, item, aad, ct);
    DeliveriesStay(s, s');
  }

  lemma SealKeepsLog(leg: Leg, s: System, item: Item, aad: bytes, ct: bytes)
    requires ValidLeg(leg) && Inv(leg, s) && Defined(leg, s)
    ensures LogInv(leg, Step(leg, s, SealItem(item, aad, ct)))
  {
    hide ReceiverInv, DeliveryInv, KeysAt, DatagramPlain, NonceOf, FrameFor;
    var s' := Step(leg, s, SealItem(item, aad, ct));
    var last := |s.log|;
    AdvanceIsNextStep(leg.ivOf, leg.chain0, s.txStep);
    forall i | 0 <= i < |s'.log| && s'.origins[i].Honest?
      ensures HonestEntry(leg, s', i)
      ensures i < last ==> Before(s'.origins[i], s'.origins[last])
    {
      if i < last {
        assert HonestEntry(leg, s, i);
      }
    }
  }

  /** Deliveries remain good while the log only grows and the receiver's step does not fall. */
  lemma DeliveriesStay(s: System, s': System)
    requires DeliveryInv(s) && s'.delivered == s.delivered
    requires s.origins <= s'.origins && s.rxStep <= s'.rxStep
    ensures DeliveryInv(s')
  {}

  lemma ForeignKeepsInv(leg: Leg, s: System, entry: Entry)
    requires ValidLeg(leg) && Inv(leg, s) && Defined(leg, s)
    requires Possible(leg, SealForeign(entry))
    ensures Inv(leg, Step(leg, s, SealForeign(entry)))
  {
    hide KeysAt, SealedEntry, FrameFor, Refines, AcceptedAt;
    var s' := Step(leg, s, SealForeign(entry));
    forall i | 0 <= i < |s'.log| && s'.origins[i].Honest?
      ensures HonestEntry(leg, s', i)
    {
      assert HonestEntry(leg, s, i);
    }
    DeliveriesStay(s, s');
  }

  /** The slot a datagram is tried against belongs to the step it is routed to. */
  lemma RoutedSlot(leg: Leg, s: System, epochId: byte)
    requires ValidLeg(leg) && Inv(leg, s) && !RouteOf(s.rx, epochId).Nowhere?
    ensures SlotFor(leg.ivOf, s.rx, epochId).Some?
    ensures SlotInv(leg, SlotFor(leg.ivOf, s.rx, epochId).value, RoutedStep(s, epochId), s.delivered)
    ensures RoutedStep(s, epochId) % 256 == epochId
  {
    AdvanceIsNextStep(leg.ivOf, leg.chain0, s.rxStep);
    if RouteOf(s.rx, epochId).ToCandidate? {
      EmptyRefines(leg.windowSize);
      assert AcceptedAt(s.delivered, s.rxStep + 1) == {} by {
        forall d | d in s.delivered ensures d.step != s.rxStep + 1 {
          assert GoodDelivery(s, d);
        }
      }
    }
  }

  /** What opens under the keys of step `step` and with counter `full` was sealed by the sender at
      exactly that step with exactly that counter. */
  lemma OnlyHonestOpens(leg: Leg, s: System, step: nat, full: u64, aad: bytes, ct: bytes, i: nat)
    requires ValidLeg(leg) && LogInv(leg, s)
    requires var keys := KeysAt(leg.ivOf, leg.chain0, step);
             i < |s.log| && Matches(s.log[i], keys.key, NonceOf(keys.salt, full), aad, ct)
    ensures s.origins[i].Honest? && HonestEntry(leg, s, i)
    ensures s.origins[i].step == step && s.origins[i].counter == full
    ensures s.log[i].plain == DatagramPlain(s.origins[i].item)
  {
    assert s.log[i].key == KeysAt(leg.ivOf, leg.chain0, step).key;
    assert s.origins[i].Honest?;
    var o := s.origins[i];
    assert HonestEntry(leg, s, i);
    EpochKeysNeverRepeat(leg.ivOf, leg.chain0, step, o.step);
    NonceInjective(KeysAt(leg.ivOf, leg.chain0, step).salt, full, o.counter);
  }

  lemma HonestPlainParses(item: Item)
    ensures FrameIn(DatagramPlain(item)) == Ok(FrameFor(item))
  {
    FrameParses(ZERO_TAG, item, [], []);
    assert FrameBytes(ZERO_TAG, item, []) + [] == FrameBytes(ZERO_TAG, item, []);
  }

  /** Everything a successful delivery tells: who sealed the datagram, and that its counter is new. */
  lemma DeliverySucceeds(leg: Leg, s: System, d: Datagram)
    requires ValidLeg(leg) && Inv(leg, s) && Defined(leg, s)
    requires !RouteOf(s.rx, d.epochId).Nowhere?
    requires RoomForSlot(leg, s, d)
    requires TryOpenIn(s.log, SlotFor(leg.ivOf, s.rx, d.epochId).value, d, leg.bits).1.Some?
    ensures OpenDatagram(leg.ivOf, s.log, s.rx, d, leg.bits).1.Ok?
    ensures var del := DeliveryOf(leg, s, d, OpenDatagram(leg.ivOf, s.log, s.rx, d, leg.bits).1.value);
            && del.entry < |s.log| && s.origins[del.entry].Honest? && HonestEntry(leg, s, del.entry)
            && s.origins[del.entry].step == del.step && s.origins[del.entry].counter == del.counter
            && del.frame == FrameFor(s.origins[del.entry].item)
            && del.step == RoutedStep(s, d.epochId)
            && del.counter !in AcceptedAt(s.delivered, del.step)
            && SlotInv(leg, TryOpenIn(s.log, SlotFor(leg.ivOf, s.rx, d.epochId).value, d, leg.bits).0, del.step, s.delivered + [del])
  {
    RoutedSlot(leg, s, d.epochId);
    var slot := SlotFor(leg.ivOf, s.rx, d.epochId).value;
    var step := RoutedStep(s, d.epochId);
    var full := FullCounter(slot, d.wireCounter, leg.bits);
    var i := FindEntry(s.log, slot.keys.key, NonceOf(slot.keys.salt, full), d.aad, d.ct).value;
    OnlyHonestOpens(leg, s, step, full, d.aad, d.ct, i);
    HonestPlainParses(s.origins[i].item);
    AcceptRefines(slot.window, AcceptedAt(s.delivered, step), full);
    var del := DeliveryOf(leg, s, d, OpenDatagram(leg.ivOf, s.log, s.rx, d, leg.bits).1.value);
    AcceptedGrows(s.delivered, del, step);
  }

  ghost predicate RoomForSlot(leg: Leg, s: System, d: Datagram)
    requires !RouteOf(s.rx, d.epochId).Nowhere?
  {
    var slot := SlotFor(leg.ivOf, s.rx, d.epochId);
    slot.Some? && HasRoom(slot.value.window, leg.bits) && |slot.value.window.bits| > 0
  }

  lemma AcceptedGrows(delivered: seq<Delivery>, d: Delivery, step: nat)
    ensures AcceptedAt(delivered + [d], step) ==
            if d.step == step then AcceptedAt(delivered, step) + {d.counter} else AcceptedAt(delivered, step)
  {}

  lemma NewPairIsDistinct(s: System, del: Delivery)
    requires DeliveryInv(s) && del.counter !in AcceptedAt(s.delivered, del.step)
    ensures forall i :: 0 <= i < |s.delivered| ==>
              s.delivered[i].step != del.step || s.delivered[i].counter != del.counter
  {}

  lemma DeliverKeepsInv(leg: Leg, s: System, d: Datagram)
    requires ValidLeg(leg) && Inv(leg, s) && Defined(leg, s)
    ensures Inv(leg, Step(leg, s, Deliver(d)))
  {
    if RouteOf(s.rx, d.epochId).Nowhere? {
      return;
    }
    RoutedSlot(leg, s, d.epochId);
    if TryOpenIn(s.log, SlotFor(leg.ivOf, s.rx, d.epochId).value, d, leg.bits).1.None? {
      RefusalChangesNothing(leg.ivOf, s.log, s.rx, d, leg.bits);
      return;
    }
    DeliverySucceeds(leg, s, d);
    var s' := Step(leg, s, Deliver(d));
    DeliverKeepsReceiver(leg, s, d);
    DeliverKeepsDeliveries(leg, s, d);
    forall i | 0 <= i < |s'.log| && s'.origins[i].Honest?
      ensures HonestEntry(leg, s', i)
    {
      assert HonestEntry(leg, s, i);
    }
  }

  lemma DeliverKeepsReceiver(leg: Leg, s: System, d: Datagram)
    requires ValidLeg(leg) && Inv(leg, s) && Defined(leg, s)
    requires OpenDatagram(leg.ivOf, s.log, s.rx, d, leg.bits).1.Ok?
    ensures ReceiverInv(leg, Step(leg, s, Deliver(d)))
  {
    RoutedSlot(leg, s, d.epochId);
    DeliverySucceeds(leg, s, d);
    var after := TryOpenIn(s.log, SlotFor(leg.ivOf, s.rx, d.epochId).value, d, leg.bits).0;
    CommitKeepsReceiver(leg, s, d.epochId, after, DeliveryOf(leg, s, d, OpenDatagram(leg.ivOf, s.log, s.rx, d, leg.bits).1.value));
  }

  function Committed(s: System, epochId: byte, after: EpochState, del: Delivery): System
  {
    s.(rx := Commit(s.rx, epochId, after),
       rxStep := if RouteOf(s.rx, epochId).ToCandidate? then s.rxStep + 1 else s.rxStep,
       delivered := s.delivered + [del])
  }

  /** A slot does not notice deliveries at other steps. */
  lemma OtherSlotStays(leg: Leg, slot: EpochState, step: nat, delivered: seq<Delivery>, del: Delivery)
    requires SlotInv(leg, slot, step, delivered) && del.step != step
    ensures SlotInv(leg, slot, step, delivered + [del])
  {
    AcceptedGrows(delivered, del, step);
  }

  lemma CommitKeepsReceiver(leg: Leg, s: System, epochId: byte, after: EpochState, del: Delivery)
    requires ValidLeg(leg) && ReceiverInv(leg, s) && !RouteOf(s.rx, epochId).Nowhere?
    requires del.step == RoutedStep(s, epochId) <= s.txStep
    requires SlotInv(leg, after, del.step, s.delivered + [del])
    ensures ReceiverInv(leg, Committed(s, epochId, after, del))
  {
    match RouteOf(s.rx, epochId)
    case ToCurrent =>
      if s.rxStep > 0 {
        OtherSlotStays(leg, s.rx.previous.value, s.rxStep - 1, s.delivered, del);
      }
    case ToPrevious =>
      OtherSlotStays(leg, s.rx.current, s.rxStep, s.delivered, del);
    case ToCandidate =>
      OtherSlotStays(leg, s.rx.current, s.rxStep, s.delivered, del);
      AdvanceIsNextStep(leg.ivOf, leg.chain0, s.rxStep);
  }

  lemma DeliverKeepsDeliveries(leg: Leg, s: System, d: Datagram)
    requires ValidLeg(leg) && Inv(leg, s) && Defined(leg, s)
    requires OpenDatagram(leg.ivOf, s.log, s.rx, d, leg.bits).1.Ok?
    ensures DeliveryInv(Step(leg, s, Deliver(d)))
  {
    RoutedSlot(leg, s, d.epochId);
    DeliverySucceeds(leg, s, d);
    var s' := Step(leg, s, Deliver(d));
    var del := DeliveryOf(leg, s, d, OpenDatagram(leg.ivOf, s.log, s.rx, d, leg.bits).1.value);
    assert s'.delivered == s.delivered + [del];
    NewPairIsDistinct(s, del);
    forall e | e in s'.delivered
      ensures GoodDelivery(s', e)
    {
      if e != del {
        assert e in s.delivered && GoodDelivery(s, e);
      }
    }
  }

  // ------------------------------------------------------------------ runs

  /** The state after a run, event by event. */
  ghost predicate Run(leg: Leg, events: seq<Event>, s: System)
  {
    if events == [] then s == Start(leg)
    else
      var earlier, last := events[..|events| - 1], events[|events| - 1];
      exists mid :: Run(leg, earlier, mid) && Moves(leg, mid, last, s)
  }

  ghost predicate Moves(leg: Leg, s: System, e: Event, s': System)
  {
    Possible(leg, e) && Defined(leg, s) && s' == Step(leg, s, e)
  }

  /** Every reachable state satisfies the invariant, and no reachable state is stuck: counters never
      get near 2^64, so every further event is defined. */
  lemma {:induction false} RunInv(leg: Leg, events: seq<Event>, s: System)
    requires ValidLeg(leg) && Run(leg, events, s)
    ensures Inv(leg, s) && Defined(leg, s)
  {
    if events == [] {
      StartInv(leg);
    } else {
      var earlier, last := events[..|events| - 1], events[|events| - 1];
      var mid :| Run(leg, earlier, mid) && Moves(leg, mid, last, s);
      RunInv(leg, earlier, mid);
      match last
      case SealItem(item, aad, ct) => SealKeepsInv(leg, mid, item, aad, ct);
      case SealForeign(entry) => ForeignKeepsInv(leg, mid, entry);
      case Deliver(d) => DeliverKeepsInv(leg, mid, d);
    }
    InvIsDefined(leg, s);
  }

  // -------------------------------------------------------------- theorems

  /** Safety over all runs: a delivered frame is the frame of a datagram the sender sealed, and no
      sealed datagram is delivered twice, however many times its epoch id has wrapped. */
  lemma ExactlyOnce(leg: Leg, events: seq<Event>, s: System)
    requires ValidLeg(leg) && Run(leg, events, s)
    ensures |s.origins| == |s.log|
    ensures forall d :: d in s.delivered ==>
              d.entry < |s.log| && s.origins[d.entry].Honest? && d.frame == FrameFor(s.origins[d.entry].item)
    ensures forall i, j :: 0 <= i < j < |s.delivered| ==> s.delivered[i].entry != s.delivered[j].entry
  {
    RunInv(leg, events, s);
    forall i, j | 0 <= i < j < |s.delivered|
      ensures s.delivered[i].entry != s.delivered[j].entry
    {
      assert s.delivered[i] in s.delivered && s.delivered[j] in s.delivered;
      assert GoodDelivery(s, s.delivered[i]) && GoodDelivery(s, s.delivered[j]);
    }
  }

  /** The frame delivered is the very item sealed exactly when its payload fits the header's length. */
  lemma DeliveredItemIntact(item: Item)
    ensures FrameFor(item).payload == item.payload <==> |item.payload| < U16_SIZE
    ensures FrameFor(item).header.streamId == item.streamId && FrameFor(item).header.frameType == item.frameType
  {}

  /** Nonce freshness over all runs: the sender never seals twice with the same key and nonce; the
      pair of step and counter grows with every datagram, the counter staying below the threshold. */
  lemma NoncesNeverRepeat(leg: Leg, events: seq<Event>, s: System)
    requires ValidLeg(leg) && Run(leg, events, s)
    ensures |s.origins| == |s.log|
    ensures forall i, j :: 0 <= i < j < |s.log| && s.origins[i].Honest? && s.origins[j].Honest? ==>
              && Before(s.origins[i], s.origins[j])
              && s.origins[i].counter < leg.rekeyAfter && s.origins[j].counter < leg.rekeyAfter
              && (s.log[i].key != s.log[j].key || s.log[i].nonce != s.log[j].nonce)
  {
    RunInv(leg, events, s);
    forall i, j | 0 <= i < j < |s.log| && s.origins[i].Honest? && s.origins[j].Honest?
      ensures Before(s.origins[i], s.origins[j])
      ensures s.origins[i].counter < leg.rekeyAfter && s.origins[j].counter < leg.rekeyAfter
      ensures s.log[i].key != s.log[j].key || s.log[i].nonce != s.log[j].nonce
    {
      assert HonestEntry(leg, s, i) && HonestEntry(leg, s, j);
      var a, b := s.origins[i], s.origins[j];
      EpochKeysNeverRepeat(leg.ivOf, leg.chain0, a.step, b.step);
      NonceInjective(KeysAt(leg.ivOf, leg.chain0, a.step).salt, a.counter, b.counter);
    }
  }

  /** The receiver cannot be pushed out of step: it is never ahead of the sender, each delivery moves
      it by at most one step and only if it carried the next epoch's keys, and a datagram that opens
      nothing leaves the whole system as it was. */
  lemma NoDesync(leg: Leg, events: seq<Event>, s: System, d: Datagram)
    requires ValidLeg(leg) && Run(leg, events, s)
    ensures Defined(leg, s) && s.rxStep <= s.txStep
    ensures s.rx.ratchet == RatchetAt(leg.chain0, s.rxStep) && s.tx.ratchet == RatchetAt(leg.chain0, s.txStep)
    ensures var s' := Step(leg, s, Deliver(d));
            && s.rxStep <= s'.rxStep <= s.rxStep + 1 && s'.rxStep <= s.txStep
            && (s'.rxStep == s.rxStep + 1 ==> d.epochId == (s.rxStep + 1) % 256 && s'.rx.previous == Some(s.rx.current))
            && (s'.delivered == s.delivered ==> s' == s)
  {
    RunInv(leg, events, s);
    DeliverKeepsInv(leg, s, d);
    OneStepAtATime(leg, s, d);
    if !RouteOf(s.rx, d.epochId).Nowhere? {
      RefusedOrDelivered(leg, s, d);
    }
  }

  lemma OneStepAtATime(leg: Leg, s: System, d: Datagram)
    requires ValidLeg(leg) && ReceiverInv(leg, s) && Defined(leg, s)
    ensures var s' := Step(leg, s, Deliver(d));
            && s.rxStep <= s'.rxStep <= s.rxStep + 1
            && (s'.rxStep == s.rxStep + 1 ==> d.epochId == (s.rxStep + 1) % 256 && s'.rx.previous == Some(s.rx.current))
  {
    NeighbouringIdsDiffer(s.rxStep);
  }

  /** A delivery either changes nothing or adds exactly one frame. */
  lemma RefusedOrDelivered(leg: Leg, s: System, d: Datagram)
    requires ValidLeg(leg) && Inv(leg, s) && Defined(leg, s) && !RouteOf(s.rx, d.epochId).Nowhere?
    ensures Step(leg, s, Deliver(d)) == s || |Step(leg, s, Deliver(d)).delivered| == |s.delivered| + 1
  {
    RoutedSlot(leg, s, d.epochId);
    if TryOpenIn(s.log, SlotFor(leg.ivOf, s.rx, d.epochId).value, d, leg.bits).1.None? {
      RefusalChangesNothing(leg.ivOf, s.log, s.rx, d, leg.bits);
    } else {
      DeliverySucceeds(leg, s, d);
    }
  }

  /** What a sealed datagram looks like to the receiver if it is opened with this associated data. */
  function WireForm(leg: Leg, o: Origin, aad: bytes): Datagram
    requires 1 <= leg.bits < 64 && o.Honest?
  {
    Datagram(o.step % 256, TruncateCounter(o.counter, leg.bits), o.ct, aad)
  }

  /** The highest counter the receiver has accepted at a step, zero if none. */
  function HighestAt(s: System, step: nat): nat
  {
    if step == s.rxStep then s.rx.current.window.highest
    else if step + 1 == s.rxStep && s.rx.previous.Some? then s.rx.previous.value.window.highest
    else 0
  }

  /** The receiver still takes counter `counter` of step `step`: the step is its previous, current or
      next one, the counter has not been accepted, and it is not a whole window old. */
  ghost predicate StillWelcome(leg: Leg, s: System, step: nat, counter: u64)
  {
    && s.rxStep <= step + 1 && step <= s.rxStep + 1
    && counter !in AcceptedAt(s.delivered, step)
    && (AcceptedAt(s.delivered, step) == {} || counter + leg.windowSize > HighestAt(s, step))
  }

  ghost predicate DeliversEntry(leg: Leg, s: System, i: nat, aad: bytes)
    requires ValidLeg(leg) && Inv(leg, s) && i < |s.log| && s.origins[i].Honest?
  {
    var o := s.origins[i];
    InvIsDefined(leg, s);
    Step(leg, s, Deliver(WireForm(leg, o, aad))).delivered
    == s.delivered + [Delivery(i, o.step, o.counter, FrameFor(o.item))]
  }

  /** The truncated counter comes back when expanded at the receiver: it is less than half the wire
      range behind the highest one accepted at its step and at most half of it ahead, or in the first range. */
  ghost predicate InReach(leg: Leg, s: System, step: nat, counter: u64)
    requires 1 <= leg.bits < 64
  {
    var highest, half := HighestAt(s, step), Pow2(leg.bits - 1);
    highest < counter + half && (counter <= highest + half || counter < Pow2(leg.bits))
  }

  /** Completeness, for any threshold and width: whatever arrived before and in whatever order, an honest
      datagram is delivered, with its own frame, exactly when it is still welcome, its counter in reach, and
      it comes with the very associated data that it was sealed with. */
  lemma HonestDatagramOpens(leg: Leg, events: seq<Event>, s: System, i: nat, aad: bytes)
    requires ValidLeg(leg) && Run(leg, events, s)
    requires i < |s.log| && |s.origins| == |s.log| && s.origins[i].Honest?
    ensures Inv(leg, s)
    ensures var o := s.origins[i];
            DeliversEntry(leg, s, i, aad)
            <==> StillWelcome(leg, s, o.step, o.counter) && InReach(leg, s, o.step, o.counter) && aad == o.aad
  {
    RunInv(leg, events, s);
    hide DeliversEntry, StillWelcome, InReach;
    var o := s.origins[i];
    if StillWelcome(leg, s, o.step, o.counter) && InReach(leg, s, o.step, o.counter) && aad == o.aad {
      WelcomeIsDelivered(leg, s, i);
    }
    if DeliversEntry(leg, s, i, aad) {
      DeliveredWasWelcome(leg, s, i, aad);
    }
  }

  /** With any other associated data an honest datagram is refused, and the receiver stays as it was. */
  lemma OtherAadIsRefused(leg: Leg, events: seq<Event>, s: System, i: nat, aad: bytes)
    requires ValidLeg(leg) && Run(leg, events, s)
    requires i < |s.log| && |s.origins| == |s.log| && s.origins[i].Honest? && aad != s.origins[i].aad
    requires s.rxStep <= s.origins[i].step + 1 && s.origins[i].step <= s.rxStep + 1
    requires InReach(leg, s, s.origins[i].step, s.origins[i].counter)
    ensures Defined(leg, s) && Step(leg, s, Deliver(WireForm(leg, s.origins[i], aad))) == s
    ensures OpenDatagram(leg.ivOf, s.log, s.rx, WireForm(leg, s.origins[i], aad), leg.bits).1.Err?
  {
    RunInv(leg, events, s);
    var o := s.origins[i];
    var d := WireForm(leg, o, aad);
    ReachesSlot(leg, s, i, aad);
    var slot := SlotFor(leg.ivOf, s.rx, d.epochId).value;
    var found := FindEntry(s.log, slot.keys.key, NonceOf(slot.keys.salt, o.counter), aad, o.ct);
    if found.Some? {
      OnlyHonestOpens(leg, s, o.step, o.counter, aad, o.ct, found.value);
      SameSealing(leg, s, i, found.value);
      assert false;
    }
    NothingFoundIsRefused(leg, s, d);
  }

  /** Step and counter tell the sealed datagrams apart. */
  lemma SameSealing(leg: Leg, s: System, i: nat, j: nat)
    requires LogInv(leg, s) && i < |s.log| && j < |s.log| && s.origins[i].Honest? && s.origins[j].Honest?
    requires s.origins[i].step == s.origins[j].step && s.origins[i].counter == s.origins[j].counter
    ensures i == j && s.log[i].aad == s.origins[i].aad
  {
    hide SealedEntry;
    SealedParts(leg, s, i);
  }

  lemma SealedParts(leg: Leg, s: System, i: nat)
    requires |s.origins| == |s.log| && i < |s.log| && s.origins[i].Honest? && HonestEntry(leg, s, i)
    ensures s.log[i].aad == s.origins[i].aad && s.log[i].ct == s.origins[i].ct
  {}

  lemma NothingFoundIsRefused(leg: Leg, s: System, d: Datagram)
    requires ValidLeg(leg) && Defined(leg, s) && !RouteOf(s.rx, d.epochId).Nowhere?
    requires SlotFor(leg.ivOf, s.rx, d.epochId).Some? && RoomForSlot(leg, s, d)
    requires var slot := SlotFor(leg.ivOf, s.rx, d.epochId).value;
             FindEntry(s.log, slot.keys.key, NonceOf(slot.keys.salt, FullCounter(slot, d.wireCounter, leg.bits)), d.aad, d.ct).None?
    ensures Step(leg, s, Deliver(d)) == s && OpenDatagram(leg.ivOf, s.log, s.rx, d, leg.bits).1.Err?
  {
    hide FullCounter, NonceOf, FreshSlot, PeekNextKeys, AcceptIn;
    RefusalChangesNothing(leg.ivOf, s.log, s.rx, d, leg.bits);
  }

  /** If an epoch is no longer than half the wire counter's range, every counter is in reach, and being
      welcome is all it takes. */
  lemma ShortEpochsLoseNothing(leg: Leg, events: seq<Event>, s: System, i: nat)
    requires ValidLeg(leg) && Run(leg, events, s)
    requires leg.rekeyAfter <= Pow2(leg.bits - 1)
    requires i < |s.log| && |s.origins| == |s.log| && s.origins[i].Honest?
    ensures Inv(leg, s)
    ensures DeliversEntry(leg, s, i, s.origins[i].aad) <==> StillWelcome(leg, s, s.origins[i].step, s.origins[i].counter)
  {
    hide Inv, DeliversEntry, StillWelcome, InReach;
    HonestDatagramOpens(leg, events, s, i, s.origins[i].aad);
    ShortEpochsAreInReach(leg, s, i);
  }

  lemma ShortEpochsAreInReach(leg: Leg, s: System, i: nat)
    requires ValidLeg(leg) && Inv(leg, s) && leg.rekeyAfter <= Pow2(leg.bits - 1)
    requires i < |s.log| && s.origins[i].Honest?
    ensures InReach(leg, s, s.origins[i].step, s.origins[i].counter)
  {
    hide Refines, SealedEntry, KeysAt, RatchetAt, FrameFor;
    assert HonestEntry(leg, s, i);
  }

  lemma ReachIff(leg: Leg, s: System, step: nat, counter: u64)
    requires 1 <= leg.bits < 64 && HighestAt(s, step) < U64_SIZE
    ensures InReach(leg, s, step, counter)
            <==> ExpandCounter(HighestAt(s, step), TruncateCounter(counter, leg.bits), leg.bits) == counter
  {
    hide ExpandCounter, TruncateCounter, HighestAt;
    ExpandInvertsTruncate(HighestAt(s, step), counter, leg.bits);
  }

  /** The datagram reaches the slot of its own step, which expands its counter to what it was. */
  lemma ReachesSlot(leg: Leg, s: System, i: nat, aad: bytes)
    requires ValidLeg(leg) && Inv(leg, s) && i < |s.log| && s.origins[i].Honest?
    requires s.rxStep <= s.origins[i].step + 1 && s.origins[i].step <= s.rxStep + 1
    requires InReach(leg, s, s.origins[i].step, s.origins[i].counter)
    ensures var o, d := s.origins[i], WireForm(leg, s.origins[i], aad);
            && !RouteOf(s.rx, d.epochId).Nowhere? && RoutedStep(s, d.epochId) == o.step
            && RoomForSlot(leg, s, d)
            && SlotInv(leg, SlotFor(leg.ivOf, s.rx, d.epochId).value, o.step, s.delivered)
            && SlotFor(leg.ivOf, s.rx, d.epochId).value.window.highest == HighestAt(s, o.step)
            && FullCounter(SlotFor(leg.ivOf, s.rx, d.epochId).value, d.wireCounter, leg.bits) == o.counter
  {
    hide InReach, ExpandCounter, TruncateCounter, Refines;
    var o := s.origins[i];
    assert HonestEntry(leg, s, i);
    RouteIsRight(leg, s, o.step);
    RoutedSlot(leg, s, o.step % 256);
    ReachIff(leg, s, o.step, o.counter);
  }

  lemma WelcomeOpens(leg: Leg, s: System, i: nat)
    requires ValidLeg(leg) && Inv(leg, s) && i < |s.log| && s.origins[i].Honest?
    requires StillWelcome(leg, s, s.origins[i].step, s.origins[i].counter)
    requires InReach(leg, s, s.origins[i].step, s.origins[i].counter)
    ensures var d := WireForm(leg, s.origins[i], s.origins[i].aad);
            && !RouteOf(s.rx, d.epochId).Nowhere? && RoutedStep(s, d.epochId) == s.origins[i].step
            && RoomForSlot(leg, s, d)
            && FullCounter(SlotFor(leg.ivOf, s.rx, d.epochId).value, d.wireCounter, leg.bits) == s.origins[i].counter
            && TryOpenIn(s.log, SlotFor(leg.ivOf, s.rx, d.epochId).value, d, leg.bits).1.Some?
  {
    hide InReach, Refines, FullCounter, RouteOf, SlotFor, RoutedStep, HighestAt;
    var o := s.origins[i];
    var d := WireForm(leg, o, o.aad);
    ReachesSlot(leg, s, i, o.aad);
    EntryIsFound(leg, s, i);
    AcceptRefines(SlotFor(leg.ivOf, s.rx, d.epochId).value.window, AcceptedAt(s.delivered, o.step), o.counter);
  }

  lemma WelcomeIsDelivered(leg: Leg, s: System, i: nat)
    requires ValidLeg(leg) && Inv(leg, s) && i < |s.log| && s.origins[i].Honest?
    requires StillWelcome(leg, s, s.origins[i].step, s.origins[i].counter)
    requires InReach(leg, s, s.origins[i].step, s.origins[i].counter)
    ensures DeliversEntry(leg, s, i, s.origins[i].aad)
  {
    var d := WireForm(leg, s.origins[i], s.origins[i].aad);
    WelcomeOpens(leg, s, i);
    RoutedSlot(leg, s, d.epochId);
    EntryIsFound(leg, s, i);
    DeliverySucceeds(leg, s, d);
  }

  lemma DeliveredWasWelcome(leg: Leg, s: System, i: nat, aad: bytes)
    requires ValidLeg(leg) && Inv(leg, s)
    requires i < |s.log| && s.origins[i].Honest? && DeliversEntry(leg, s, i, aad)
    ensures StillWelcome(leg, s, s.origins[i].step, s.origins[i].counter)
    ensures InReach(leg, s, s.origins[i].step, s.origins[i].counter)
    ensures aad == s.origins[i].aad
  {
    hide InReach, ExpandCounter, TruncateCounter, Refines, SealedEntry;
    var o := s.origins[i];
    var d := WireForm(leg, o, aad);
    var s' := Step(leg, s, Deliver(d));
    assert |s'.delivered| == |s.delivered| + 1 && s'.delivered[|s.delivered|] == Delivery(i, o.step, o.counter, FrameFor(o.item));
    RoutedSlot(leg, s, d.epochId);
    DeliverySucceeds(leg, s, d);
    SealedParts(leg, s, i);
    var slot := SlotFor(leg.ivOf, s.rx, d.epochId).value;
    assert slot.window.highest == HighestAt(s, o.step);
    AcceptRefines(slot.window, AcceptedAt(s.delivered, o.step), o.counter);
    ReachIff(leg, s, o.step, o.counter);
  }

  /** Ids modulo 256 do not confuse the three steps a datagram may belong to. */
  lemma RouteIsRight(leg: Leg, s: System, step: nat)
    requires ValidLeg(leg) && Inv(leg, s)
    requires s.rxStep <= step + 1 && step <= s.rxStep + 1
    ensures !RouteOf(s.rx, step % 256).Nowhere? && RoutedStep(s, step % 256) == step
  {
    NeighbouringIdsDiffer(s.rxStep);
    assert s.rx.current.epochId == s.rxStep % 256;
    if step == s.rxStep + 1 {
      assert RouteOf(s.rx, step % 256).ToCandidate?;
    } else if step == s.rxStep {
      assert RouteOf(s.rx, step % 256).ToCurrent?;
    } else {
      assert step == s.rxStep - 1 && s.rx.previous.value.epochId == step % 256;
      assert RouteOf(s.rx, step % 256).ToPrevious?;
    }
  }

  /** An honest entry is the one its own ciphertext finds. */
  lemma EntryIsFound(leg: Leg, s: System, i: nat)
    requires ValidLeg(leg) && LogInv(leg, s)
    requires i < |s.log| && s.origins[i].Honest?
    ensures var keys := KeysAt(leg.ivOf, leg.chain0, s.origins[i].step);
            FindEntry(s.log, keys.key, NonceOf(keys.salt, s.origins[i].counter), s.origins[i].aad, s.origins[i].ct) == Some(i)
  {
    var o, e := s.origins[i], s.log[i];
    var keys := KeysAt(leg.ivOf, leg.chain0, o.step);
    assert HonestEntry(leg, s, i);
    assert Matches(e, keys.key, NonceOf(keys.salt, o.counter), o.aad, o.ct);
    var found := FindEntry(s.log, keys.key, NonceOf(keys.salt, o.counter), o.aad, o.ct);
    assert e in s.log;
    OnlyHonestOpens(leg, s, o.step, o.counter, o.aad, o.ct, found.value);
  }
}
