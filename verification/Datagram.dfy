/** Sealing and opening datagrams (`engine/src/nrxp/datagram.rs`).

    First the state of either end and what one call does to it, as values and functions; then the
    classes that keep this state in place, proved to do the same. */
module Datagrams {
  import opened Wrappers
  import opened Bytes
  import opened Bits
  import opened Counter
  import opened Crypto
  import opened Frames
  import opened KeyRatchets
  import opened ReplayWindows

  // -------------------------------------------------------------- sending

  datatype Sender = Sender(ratchet: Ratchet, counter: u64)

  /** The state the next datagram is sealed in: rekeyed first if the epoch is used up. */
  function Ready(tx: Sender, rekeyAfter: u64): Sender
  {
    if tx.counter >= rekeyAfter then Sender(NextRatchet(tx.ratchet), 0) else tx
  }

  function DatagramPlain(item: Item): bytes
  {
    FrameBytes(ZERO_TAG, item, [])
  }

  /** What sealing an item in a given state adds to the AEAD's log. */
  function SealedEntry(ivOf: IvOf, ready: Sender, item: Item, aad: bytes, ct: bytes): Entry
  {
    var keys := CurrentKeys(ivOf, ready.ratchet);
    Entry(keys.key, NonceOf(keys.salt, ready.counter), aad, DatagramPlain(item), ct)
  }

  // ------------------------------------------------------------ receiving

  datatype EpochState = EpochState(epochId: byte, keys: EpochKeys, window: Window)

  datatype Receiver = Receiver(ratchet: Ratchet, current: EpochState, previous: Option<EpochState>)

  /** A datagram as the network hands it over: nothing in it is trusted. */
  datatype Datagram = Datagram(epochId: byte, wireCounter: u64, ct: bytes, aad: bytes)

  datatype OpenError =
    | CurrentFailed
    | PreviousFailed
    | CandidateFailed
    | EpochOutOfRange
    | BadFrame
    | IncompleteFrame

  function FreshSlot(keys: EpochKeys, windowSize: nat): EpochState
  {
    EpochState(keys.epochId, keys, EmptyWindow(windowSize))
  }

  /** Counter arithmetic around this window stays clear of 2^64. */
  predicate HasRoom(w: Window, bits: nat)
  {
    1 <= bits < 64 && w.highest + 2 * Pow2(bits) <= U64_SIZE
  }

  function FullCounter(slot: EpochState, wireCounter: u64, bits: nat): (full: u64)
    requires HasRoom(slot.window, bits)
    ensures full + 1 < U64_SIZE
  {
    ExpandFitsU64(slot.window.highest, wireCounter, bits);
    ExpandIsCentred(slot.window.highest, wireCounter, bits);
    ExpandCounter(slot.window.highest, wireCounter, bits)
  }

  function TryOpenIn(log: seq<Entry>, slot: EpochState, d: Datagram, bits: nat): (r: (EpochState, Option<bytes>))
    requires HasRoom(slot.window, bits) && |slot.window.bits| > 0
    ensures |r.0.window.bits| == |slot.window.bits|
  {
    var full := FullCounter(slot, d.wireCounter, bits);
    match OpenIn(log, slot.keys.key, NonceOf(slot.keys.salt, full), d.aad, d.ct)
    case None => (slot, None)
    case Some(plain) =>
      var (window, isNew) := AcceptIn(slot.window, full);
      (slot.(window := window), if isNew then Some(plain) else None)
  }

  datatype Route = ToCurrent | ToPrevious | ToCandidate | Nowhere

  function RouteOf(rx: Receiver, epochId: byte): Route
  {
    if epochId == rx.current.epochId then ToCurrent
    else if rx.previous.Some? && rx.previous.value.epochId == epochId then ToPrevious
    else if epochId == WrappingNext(rx.current.epochId) then ToCandidate
    else Nowhere
  }

  function FrameIn(plain: bytes): Result<Frame, OpenError>
  {
    match ParseFrame(plain)
    case NeedMore => Err(IncompleteFrame)
    case Bad(_) => Err(BadFrame)
    case Got(frame, _) => Ok(frame)
  }

  predicate WellSized(rx: Receiver, bits: nat)
  {
    && HasRoom(rx.current.window, bits) && |rx.current.window.bits| > 0
    && (rx.previous.Some? ==> HasRoom(rx.previous.value.window, bits) && |rx.previous.value.window.bits| > 0)
  }

  /** The slot a datagram is tried against, if its epoch id leads to one. */
  function SlotFor(ivOf: IvOf, rx: Receiver, epochId: byte): Option<EpochState>
  {
    match RouteOf(rx, epochId)
    case ToCurrent => Some(rx.current)
    case ToPrevious => rx.previous
    case ToCandidate => Some(FreshSlot(PeekNextKeys(ivOf, rx.ratchet), |rx.current.window.bits|))
    case Nowhere => None
  }

  /** The receiver once the slot has let a datagram through. */
  function Commit(rx: Receiver, epochId: byte, after: EpochState): Receiver
  {
    match RouteOf(rx, epochId)
    case ToCurrent => rx.(current := after)
    case ToPrevious => rx.(previous := Some(after))
    case ToCandidate => Receiver(NextRatchet(rx.ratchet), after, Some(rx.current))
    case Nowhere => rx
  }

  function OpenDatagram(ivOf: IvOf, log: seq<Entry>, rx: Receiver, d: Datagram, bits: nat): (Receiver, Result<Frame, OpenError>)
    requires WellSized(rx, bits)
  {
    if RouteOf(rx, d.epochId).Nowhere? then (rx, Err(EpochOutOfRange))
    else
      RoomForCandidate(bits, rx.current.window);
      var (slot, plain) := TryOpenIn(log, SlotFor(ivOf, rx, d.epochId).value, d, bits);
      if plain.Some? then
        (Commit(rx, d.epochId, slot), FrameIn(plain.value))
      else
        match RouteOf(rx, d.epochId)
        case ToCurrent => (rx.(current := slot), Err(CurrentFailed))
        case ToPrevious => (rx.(previous := Some(slot)), Err(PreviousFailed))
        case _ => (rx, Err(CandidateFailed))
  }

  lemma RoomForCandidate(bits: nat, w: Window)
    requires HasRoom(w, bits)
    ensures HasRoom(EmptyWindow(|w.bits|), bits)
  {}

  predicate IsAuthFailure(e: OpenError)
  {
    !e.BadFrame? && !e.IncompleteFrame?
  }

  /** A datagram that is refused, whether forged, replayed, too old or of a foreign epoch, changes
      nothing at all in the receiver. */
  lemma RefusalChangesNothing(ivOf: IvOf, log: seq<Entry>, rx: Receiver, d: Datagram, bits: nat)
    requires WellSized(rx, bits)
    requires OpenDatagram(ivOf, log, rx, d, bits).1.Err? && IsAuthFailure(OpenDatagram(ivOf, log, rx, d, bits).1.error)
    ensures OpenDatagram(ivOf, log, rx, d, bits).0 == rx
  {
    var slot := SlotFor(ivOf, rx, d.epochId);
    if slot.Some? {
      RoomForCandidate(bits, rx.current.window);
      RejectionKeepsSlot(log, slot.value, d, bits);
    }
  }

  lemma RejectionKeepsSlot(log: seq<Entry>, slot: EpochState, d: Datagram, bits: nat)
    requires HasRoom(slot.window, bits) && |slot.window.bits| > 0
    requires TryOpenIn(log, slot, d, bits).1.None?
    ensures TryOpenIn(log, slot, d, bits).0 == slot
  {
    var full := FullCounter(slot, d.wireCounter, bits);
    var i := Slot(full, |slot.window.bits|);
    if slot.window.bits[i] {
      assert slot.window.bits[i := true] == slot.window.bits;
    }
  }

  // ------------------------------------------------------ the sending object

  datatype SealedDatagram = SealedDatagram(epochId: byte, counter: u64, ciphertext: bytes)

  class DatagramTx {
    const keys: DatagramKeyMaterial
    const aead: IdealAead
    const ivOf: IvOf
    const rekeyAfter: u64
    var counter: u64

    function Value(): Sender
      reads this, keys.tx
    {
      Sender(keys.tx.Value(), counter)
    }

    constructor (keys: DatagramKeyMaterial, aead: IdealAead, ivOf: IvOf, rekeyAfter: u64)
      ensures this.keys == keys && this.aead == aead && this.ivOf == ivOf && this.rekeyAfter == rekeyAfter
      ensures Value() == Sender(keys.tx.Value(), 0)
    {
      this.keys, this.aead, this.ivOf, this.rekeyAfter := keys, aead, ivOf, rekeyAfter;
      counter := 0;
    }

    method PeekNextEpochAndCounter() returns (epochId: byte, next: u64)
      ensures (epochId, next) == (Ready(Value(), rekeyAfter).ratchet.epochId, Ready(Value(), rekeyAfter).counter)
    {
      if counter >= rekeyAfter {
        return WrappingNext(keys.tx.epochId), 0;
      }
      return keys.tx.epochId, counter;
    }

    method Seal(item: Item, aad: bytes) returns (sealed: SealedDatagram)
      modifies this, keys.tx, aead
      ensures var ready := Ready(old(Value()), rekeyAfter);
              && Value() == ready.(counter := ready.counter + 1)
              && sealed.epochId == ready.ratchet.epochId && sealed.counter == ready.counter
              && |sealed.ciphertext| == |DatagramPlain(item)| + TAG_LEN
              && aead.log == old(aead.log) + [SealedEntry(ivOf, ready, item, aad, sealed.ciphertext)]
    {
      if counter >= rekeyAfter {
        var _ := keys.tx.Advance(ivOf);
        counter := 0;
      }
      var epoch := keys.tx.Current(ivOf);
      var used := counter;
      counter := counter + 1;
      var plain := IntoBytes(item, ZERO_TAG, 0);
      assert plain == DatagramPlain(item);
      var nonce := BuildNonce(epoch.salt, used);
      var ct := aead.Seal(epoch.key, nonce, aad, plain);
      sealed := SealedDatagram(epoch.epochId, used, ct);
    }
  }

  // ---------------------------------------------------- the receiving object

  method FrameFrom(plain: bytes) returns (r: Result<Frame, OpenError>)
    ensures r == FrameIn(plain)
  {
    var buffer := new BytesMut(plain);
    var frame := ParseFrom(buffer);
    match frame
    case Err(_) => r := Err(BadFrame);
    case Ok(None) => r := Err(IncompleteFrame);
    case Ok(Some(f)) => r := Ok(f);
  }

  class EpochSlot {
    const epochId: byte
    const keys: EpochKeys
    const window: ReplayWindow

    ghost predicate Valid()
    {
      window.Valid()
    }

    ghost function Value(): (s: EpochState)
      reads window, window.bitmap
      requires Valid()
      ensures |s.window.bits| > 0
    {
      EpochState(epochId, keys, window.Value())
    }

    constructor Fresh(keys: EpochKeys, words: nat)
      requires words > 0
      ensures Valid() && fresh(window) && fresh(window.bitmap) && window.bitmap.Length == words
      ensures Value() == FreshSlot(keys, 64 * words)
    {
      this.epochId := keys.epochId;
      this.keys := keys;
      this.window := new ReplayWindow(words);
    }

    method TryOpen(aead: IdealAead, d: Datagram, bits: nat) returns (plain: Option<bytes>)
      requires Valid() && HasRoom(Value().window, bits)
      modifies window, window.bitmap
      ensures (Value(), plain) == TryOpenIn(aead.log, old(Value()), d, bits)
    {
      var full := FullCounter(EpochState(epochId, keys, Window(window.initialized, window.highest, [])), d.wireCounter, bits);
      var nonce := BuildNonce(keys.salt, full);
      plain := aead.Open(keys.key, nonce, d.aad, d.ct);
      if plain.Some? {
        var isNew := window.Accept(full);
        if !isNew {
          plain := None;
        }
      }
    }
  }

  class DatagramRx {
    const keys: DatagramKeyMaterial
    const aead: IdealAead
    const ivOf: IvOf
    var current: EpochSlot
    var previous: EpochSlot?

    ghost predicate Valid()
      reads this
    {
      && current.Valid()
      && (previous != null ==>
            && previous.Valid() && previous.window.bitmap.Length == current.window.bitmap.Length
            && previous.window != current.window && previous.window.bitmap != current.window.bitmap)
    }

    ghost function Footprint(): set<object>
      reads this
    {
      {current.window, current.window.bitmap, keys.rx}
      + if previous != null then {previous.window, previous.window.bitmap} else {}
    }

    ghost function Value(): Receiver
      reads this, Footprint()
      requires Valid()
    {
      Receiver(keys.rx.Value(), current.Value(), if previous == null then None else Some(previous.Value()))
    }

    constructor (keys: DatagramKeyMaterial, aead: IdealAead, ivOf: IvOf, words: nat)
      requires words > 0
      ensures this.keys == keys && this.aead == aead && this.ivOf == ivOf
      ensures Valid() && fresh(Footprint() - {keys.rx})
      ensures Value() == Receiver(keys.rx.Value(), FreshSlot(CurrentKeys(ivOf, keys.rx.Value()), 64 * words), None)
    {
      this.keys, this.aead, this.ivOf := keys, aead, ivOf;
      var epoch := keys.rx.Current(ivOf);
      current := new EpochSlot.Fresh(epoch, words);
      previous := null;
    }

    method Open(d: Datagram, bits: nat) returns (r: Result<Frame, OpenError>)
      requires Valid() && WellSized(Value(), bits)
      modifies this, Footprint()
      ensures Valid() && fresh(Footprint() - old(Footprint()))
      ensures (Value(), r) == OpenDatagram(ivOf, aead.log, old(Value()), d, bits)
    {
      hide TryOpenIn, FrameIn, StepChain, DeriveEpoch, AcceptIn;
      var plain: Option<bytes>;
      if d.epochId == current.epochId {
        plain := current.TryOpen(aead, d, bits);
        if plain.None? {
          return Err(CurrentFailed);
        }
      } else if previous != null && previous.epochId == d.epochId {
        plain := previous.TryOpen(aead, d, bits);
        if plain.None? {
          return Err(PreviousFailed);
        }
      } else if d.epochId == WrappingNext(current.epochId) {
        var next := keys.rx.PeekNext(ivOf);
        var candidate := new EpochSlot.Fresh(next, current.window.bitmap.Length);
        plain := candidate.TryOpen(aead, d, bits);
        if plain.None? {
          return Err(CandidateFailed);
        }
        var _ := keys.rx.Advance(ivOf);
        previous := current;
        current := candidate;
      } else {
        return Err(EpochOutOfRange);
      }
      r := FrameFrom(plain.value);
    }
  }
}
