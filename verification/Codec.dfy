/** The encrypting codec of the TCP leg (`engine/src/nrxp/codec.rs`): packing frames into records on
    one side, draining a byte stream into frames on the other. */
module Codecs {
  import opened Wrappers
  import opened Bytes
  import opened Crypto
  import opened Frames
  import opened TlsRecords
  import opened ChaChaStreams
  import opened PadShapers

  // ---------------------------------------------------------------- packing

  /** The frames of one record, and whether the shaper pads it. */
  datatype Batch = Batch(frames: seq<Item>, shaped: bool)

  function Need(item: Item): nat
  {
    WireLen(|item.payload|, 0)
  }

  function TotalLen(frames: seq<Item>): nat
  {
    if frames == [] then 0 else Need(frames[0]) + TotalLen(frames[1..])
  }

  lemma {:induction false} TotalLenAppend(frames: seq<Item>, more: seq<Item>)
    ensures TotalLen(frames + more) == TotalLen(frames) + TotalLen(more)
  {
    if frames == [] {
      assert frames + more == more;
    } else {
      assert (frames + more)[1..] == frames[1..] + more;
      TotalLenAppend(frames[1..], more);
    }
  }

  function Flushed(batch: seq<Item>): seq<Batch>
  {
    if batch == [] then [] else [Batch(batch, true)]
  }

  /** The records still to come when `batch` is being filled and `items` remain. */
  function PackFrom(batch: seq<Item>, items: seq<Item>): seq<Batch>
    decreases items
  {
    if items == [] then Flushed(batch)
    else
      var item, rest := items[0], items[1..];
      if Need(item) > MAX_RECORD_PLAINTEXT then
        Flushed(batch) + [Batch([item], false)] + PackFrom([], rest)
      else if TotalLen(batch) + Need(item) > MAX_RECORD_PLAINTEXT then
        Flushed(batch) + PackFrom([item], rest)
      else
        PackFrom(batch + [item], rest)
  }

  function Pack(items: seq<Item>): seq<Batch>
  {
    PackFrom([], items)
  }

  predicate FitsBatch(b: Batch)
  {
    b.frames != [] && (b.shaped <==> TotalLen(b.frames) <= MAX_RECORD_PLAINTEXT)
  }

  lemma {:induction false} PackFromFits(batch: seq<Item>, items: seq<Item>)
    requires TotalLen(batch) <= MAX_RECORD_PLAINTEXT
    ensures forall b :: b in PackFrom(batch, items) ==> FitsBatch(b)
    decreases items
  {
    if items != [] {
      var item, rest := items[0], items[1..];
      if Need(item) > MAX_RECORD_PLAINTEXT {
        PackFromFits([], rest);
      } else if TotalLen(batch) + Need(item) > MAX_RECORD_PLAINTEXT {
        PackFromFits([item], rest);
      } else {
        TotalLenAppend(batch, [item]);
        PackFromFits(batch + [item], rest);
      }
    }
  }

  // ------------------------------------------------------- record plaintext

  /** Frames without padding, one after the other. */
  function Joined(tag: Tag, frames: seq<Item>): bytes
  {
    if frames == [] then [] else FrameBytes(tag, frames[0], []) + Joined(tag, frames[1..])
  }

  lemma {:induction false} JoinedAppend(tag: Tag, frames: seq<Item>, item: Item)
    ensures Joined(tag, frames + [item]) == Joined(tag, frames) + FrameBytes(tag, item, [])
  {
    if frames == [] {
      assert frames + [item] == [item];
      assert Joined(tag, [item]) == FrameBytes(tag, item, []) + Joined(tag, []);
    } else {
      assert (frames + [item])[1..] == frames[1..] + [item];
      JoinedAppend(tag, frames[1..], item);
    }
  }

  /** A record's plaintext: the padding goes to the tail of its last frame. */
  function PlainOf(tag: Tag, frames: seq<Item>, padding: bytes): bytes
    requires frames != [] && |padding| < U16_SIZE
  {
    Joined(tag, frames[..|frames| - 1]) + FrameBytes(tag, frames[|frames| - 1], padding)
  }

  lemma {:induction false} JoinedLen(tag: Tag, frames: seq<Item>)
    ensures |Joined(tag, frames)| == TotalLen(frames)
  {
    if frames != [] {
      JoinedLen(tag, frames[1..]);
    }
  }

  lemma PlainLen(tag: Tag, frames: seq<Item>, padding: bytes)
    requires frames != [] && |padding| < U16_SIZE
    ensures |PlainOf(tag, frames, padding)| == TotalLen(frames) + |padding|
  {
    var n := |frames| - 1;
    JoinedLen(tag, frames[..n]);
    TotalLenAppend(frames[..n], [frames[n]]);
    assert frames == frames[..n] + [frames[n]];
    assert TotalLen([frames[n]]) == Need(frames[n]);
  }

  // ---------------------------------------------------------------- sending

  function BatchPad(boundaries: seq<nat>, b: Batch): nat
    requires b.shaped ==> TotalLen(b.frames) <= MAX_RECORD_PLAINTEXT
  {
    if b.shaped then PadFor(boundaries, TotalLen(b.frames)) else 0
  }

  /** The log entry `e` seals exactly this batch, padded by `pad` bytes, as record number `counter`. */
  ghost predicate Seals(e: Entry, key: Secret, iv: Iv, counter: nat, tag: Tag, frames: seq<Item>, pad: nat)
    requires frames != []
  {
    && pad < U16_SIZE && pad <= |e.plain|
    && e == StreamEntry(key, iv, counter, PlainOf(tag, frames, e.plain[|e.plain| - pad..]), e.ct)
    && |e.ct| == |e.plain| + TAG_LEN
  }

  /** What stays the same during one call: the stream's key and salt, the tag and the boundaries. */
  datatype Setup = Setup(key: Secret, iv: Iv, tag: Tag, boundaries: seq<nat>)

  ghost predicate SealsBatch(setup: Setup, counter: nat, e: Entry, b: Batch)
  {
    FitsBatch(b) && Seals(e, setup.key, setup.iv, counter, setup.tag, b.frames, BatchPad(setup.boundaries, b))
  }

  /** The log entries seal these batches, in order, with consecutive counters. */
  ghost predicate SealsAll(setup: Setup, counter: nat, entries: seq<Entry>, batches: seq<Batch>)
  {
    |entries| == |batches| && forall i :: 0 <= i < |batches| ==> SealsBatch(setup, counter + i, entries[i], batches[i])
  }

  /** The bytes on the wire: one application data record per entry. */
  function WireOf(entries: seq<Entry>): bytes
  {
    if entries == [] then [] else RecordBytes(AppDataRecord(entries[0].ct)) + WireOf(entries[1..])
  }

  lemma {:induction false} WireAppend(entries: seq<Entry>, more: seq<Entry>)
    ensures WireOf(entries + more) == WireOf(entries) + WireOf(more)
  {
    if entries == [] {
      assert entries + more == more;
    } else {
      assert (entries + more)[1..] == entries[1..] + more;
      WireAppend(entries[1..], more);
    }
  }

  class TxCodec {
    const crypto: ChaChaStream
    const boundaries: seq<nat>

    constructor (crypto: ChaChaStream)
      ensures this.crypto == crypto && ValidBoundaries(boundaries)
    {
      this.crypto := crypto;
      var b := NewBoundaries();
      boundaries := b;
    }

    /** Lays the frames of one record out, the padding in the tail of the last. */
    method AssemblePlain(tag: Tag, frames: seq<Item>, pad: u16) returns (plain: bytes)
      requires frames != []
      ensures pad <= |plain| && plain == PlainOf(tag, frames, plain[|plain| - pad..])
    {
      plain := [];
      hide HeaderBytes;
      var last := |frames| - 1;
      for idx := 0 to last
        invariant plain == Joined(tag, frames[..idx])
      {
        JoinedAppend(tag, frames[..idx], frames[idx]);
        assert frames[..idx] + [frames[idx]] == frames[..idx + 1];
        var wire := IntoBytes(frames[idx], tag, 0);
        assert wire == FrameBytes(tag, frames[idx], []);
        plain := plain + wire;
      }
      var wire := IntoBytes(frames[last], tag, pad);
      plain := plain + wire;
      assert plain[|plain| - pad..] == wire[|wire| - pad..];
    }

    /** Seals one record and appends it to `out`. */
    method FlushRecord(tag: Tag, frames: seq<Item>, pad: u16, out: BytesMut)
      requires frames != [] && crypto.counter + 1 < U64_SIZE
      modifies crypto, crypto.aead, out
      ensures crypto.counter == old(crypto.counter) + 1
      ensures |crypto.aead.log| == |old(crypto.aead.log)| + 1 && old(crypto.aead.log) <= crypto.aead.log
      ensures var e := crypto.aead.log[|old(crypto.aead.log)|];
              && Seals(e, crypto.key, crypto.baseIv, old(crypto.counter), tag, frames, pad)
              && out.data == old(out.data) + RecordBytes(AppDataRecord(e.ct))
    {
      var plain := AssemblePlain(tag, frames, pad);
      var buffer := new BytesMut(plain);
      crypto.Encrypt(buffer);
      var record := PackAppData(buffer.data);
      out.PutSlice(record);
    }

    method FlushShaped(tag: Tag, frames: seq<Item>, plainLen: nat, out: BytesMut)
      requires frames != [] && plainLen == TotalLen(frames) <= MAX_RECORD_PLAINTEXT
      requires ValidBoundaries(boundaries) && crypto.counter + 1 < U64_SIZE
      modifies crypto, crypto.aead, out
      ensures crypto.counter == old(crypto.counter) + 1
      ensures |crypto.aead.log| == |old(crypto.aead.log)| + 1 && old(crypto.aead.log) <= crypto.aead.log
      ensures var e := crypto.aead.log[|old(crypto.aead.log)|];
              && Seals(e, crypto.key, crypto.baseIv, old(crypto.counter), tag, frames, PadFor(boundaries, plainLen))
              && out.data == old(out.data) + RecordBytes(AppDataRecord(e.ct))
    {
      var target := ComputeTargetRecordLen(boundaries, plainLen);
      var wanted := if target >= plainLen + AEAD_TAG_LEN then target - (plainLen + AEAD_TAG_LEN) else 0;
      var pad := if wanted <= MAX_RECORD_PLAINTEXT - plainLen then wanted else MAX_RECORD_PLAINTEXT - plainLen;
      FlushRecord(tag, frames, pad, out);
    }

    ghost function SetupFor(tag: Tag): Setup
    {
      Setup(crypto.key, crypto.baseIv, tag, boundaries)
    }

    /** Since the log had `start` entries and the counter was `first`, exactly the batches `done` have
        been sealed and written to `out`. */
    ghost predicate Encoded(tag: Tag, start: nat, first: nat, done: seq<Batch>, out: BytesMut)
      reads this, crypto, crypto.aead, out
    {
      && start <= |crypto.aead.log| && crypto.counter == first + |done|
      && SealsAll(SetupFor(tag), first, crypto.aead.log[start..], done)
      && out.data == WireOf(crypto.aead.log[start..])
    }

    /** Seals one batch, shaped or not, and clears it. */
    method FlushBatch(tag: Tag, b: Batch, out: BytesMut, ghost start: nat, ghost first: nat, ghost done: seq<Batch>)
      requires FitsBatch(b) && ValidBoundaries(boundaries) && crypto.counter + 1 < U64_SIZE
      requires Encoded(tag, start, first, done, out)
      modifies crypto, crypto.aead, out
      ensures old(crypto.aead.log) <= crypto.aead.log && crypto.counter == old(crypto.counter) + 1
      ensures Encoded(tag, start, first, done + [b], out)
    {
      hide Seals, PadFor, TotalLen;
      ghost var entries := crypto.aead.log[start..];
      if b.shaped {
        FlushShaped(tag, b.frames, TotalLen(b.frames), out);
      } else {
        FlushRecord(tag, b.frames, 0, out);
      }
      ghost var e := crypto.aead.log[|crypto.aead.log| - 1];
      assert crypto.aead.log[start..] == entries + [e];
      OneMoreEntry(SetupFor(tag), first, entries, e, done, b);
      OneMoreRecord(entries, e);
    }

    /** Places one item: an oversized frame travels alone, any other joins the batch or starts the next. */
    method PlaceItem(tag: Tag, item: Item, batch: seq<Item>, batchLen: nat, out: BytesMut,
                     ghost start: nat, ghost first: nat, ghost done: seq<Batch>, ghost rest: seq<Item>)
        returns (batch': seq<Item>, batchLen': nat, ghost done': seq<Batch>)
      requires ValidBoundaries(boundaries) && crypto.counter + 2 < U64_SIZE
      requires batchLen == TotalLen(batch) <= MAX_RECORD_PLAINTEXT
      requires Encoded(tag, start, first, done, out)
      modifies crypto, crypto.aead, out
      ensures old(crypto.aead.log) <= crypto.aead.log
      ensures batchLen' == TotalLen(batch') <= MAX_RECORD_PLAINTEXT
      ensures Encoded(tag, start, first, done', out)
      ensures done' + PackFrom(batch', rest) == done + PackFrom(batch, [item] + rest)
      ensures |done'| + |Flushed(batch')| <= |done| + |Flushed(batch)| + 1
      ensures crypto.counter - |done'| == old(crypto.counter) - |done|
    {
      hide Encoded;
      batch', batchLen', done' := batch, batchLen, done;
      var need := WireLen(|item.payload|, 0);
      PackStep(done, batch, item, rest);
      TotalLenAppend([], [item]);
      if need > MAX_RECORD_PLAINTEXT {
        if batch != [] {
          FlushBatch(tag, Batch(batch, true), out, start, first, done);
          done' := done + [Batch(batch, true)];
          batch', batchLen' := [], 0;
        }
        FlushBatch(tag, Batch([item], false), out, start, first, done');
        done' := done' + [Batch([item], false)];
        return;
      }
      if batchLen + need > MAX_RECORD_PLAINTEXT {
        FlushBatch(tag, Batch(batch, true), out, start, first, done);
        done' := done + [Batch(batch, true)];
        batch', batchLen' := [], 0;
      }
      TotalLenAppend(batch', [item]);
      batchLen' := batchLen' + need;
      batch' := batch' + [item];
    }

    /** Packs the items greedily into records and seals them, each under its own nonce. */
    method EncodeBatch(items: seq<Item>, tag: Tag) returns (wire: bytes)
      requires ValidBoundaries(boundaries) && crypto.counter + |items| + 1 < U64_SIZE
      modifies crypto, crypto.aead
      ensures old(crypto.aead.log) <= crypto.aead.log
      ensures var added := crypto.aead.log[|old(crypto.aead.log)|..];
              && SealsAll(SetupFor(tag), old(crypto.counter), added, Pack(items))
              && wire == WireOf(added)
              && crypto.counter == old(crypto.counter) + |Pack(items)|
    {
      if items == [] {
        return [];
      }
      var out := new BytesMut([]);
      EncodeItems(items, tag, out, |crypto.aead.log|, crypto.counter);
      wire := out.data;
    }

    /** The loop over the items, and the last flush. */
    method EncodeItems(items: seq<Item>, tag: Tag, out: BytesMut, ghost start: nat, ghost first: nat)
      requires ValidBoundaries(boundaries) && crypto.counter + |items| + 1 < U64_SIZE && first == crypto.counter
      requires Encoded(tag, start, first, [], out)
      modifies crypto, crypto.aead, out
      ensures old(crypto.aead.log) <= crypto.aead.log
      ensures crypto.counter == old(crypto.counter) + |Pack(items)|
      ensures Encoded(tag, start, first, Pack(items), out)
    {
      hide Encoded, PackFrom, TotalLen, Flushed;
      ghost var done: seq<Batch> := [];
      var batch: seq<Item> := [];
      var batchLen := 0;
      NothingPacked([]);
      assert items[0..] == items && [] + PackFrom([], items) == Pack(items);
      for i := 0 to |items|
        invariant old(crypto.aead.log) <= crypto.aead.log
        invariant Encoded(tag, start, first, done, out)
        invariant batchLen == TotalLen(batch) <= MAX_RECORD_PLAINTEXT
        invariant done + PackFrom(batch, items[i..]) == Pack(items)
        invariant |done| + |Flushed(batch)| <= i && crypto.counter == first + |done|
      {
        assert items[i..] == [items[i]] + items[i + 1..];
        batch, batchLen, done := PlaceItem(tag, items[i], batch, batchLen, out, start, first, done, items[i + 1..]);
      }
      assert items[|items|..] == [];
      NothingPacked(batch);
      if batch != [] {
        FlushBatch(tag, Batch(batch, true), out, start, first, done);
        done := done + [Batch(batch, true)];
      } else {
        assert done + [] == done;
      }
    }

    /** One record of exactly the asked length, holding a single empty cover frame. */
    method EncodeCover(targetRecordLen: nat, tag: Tag) returns (wire: bytes)
      requires crypto.counter + 1 < U64_SIZE
      modifies crypto, crypto.aead
      ensures crypto.counter == old(crypto.counter) + 1
      ensures |crypto.aead.log| == |old(crypto.aead.log)| + 1 && old(crypto.aead.log) <= crypto.aead.log
      ensures var e := crypto.aead.log[|old(crypto.aead.log)|];
              && Seals(e, crypto.key, crypto.baseIv, old(crypto.counter), tag, [COVER_ITEM], CoverPad(targetRecordLen))
              && |e.ct| == Clamp(targetRecordLen, EMPTY_COVER_RECORD, MAX_RECORD_LEN)
              && wire == WireOf([e])
    {
      var target := Clamp(targetRecordLen, EMPTY_COVER_RECORD, MAX_RECORD_LEN);
      var pad := target - EMPTY_COVER_RECORD;
      var out := new BytesMut([]);
      FlushRecord(tag, [COVER_ITEM], pad, out);
      wire := out.data;
      ghost var e := crypto.aead.log[|old(crypto.aead.log)|];
      PlainLen(tag, [COVER_ITEM], e.plain[|e.plain| - pad..]);
    }
  }

  /** Padding of a cover record, the asked length being brought into range first. */
  function CoverPad(targetRecordLen: nat): (pad: nat)
    ensures pad <= MAX_RECORD_LEN - EMPTY_COVER_RECORD
  {
    Clamp(targetRecordLen, EMPTY_COVER_RECORD, MAX_RECORD_LEN) - EMPTY_COVER_RECORD
  }

  const EMPTY_COVER_RECORD: nat := FRAME_HEADER_SIZE + AEAD_TAG_LEN
  const COVER_ITEM: Item := Item(0, FrameType.Cover, [])

  lemma NothingPacked(batch: seq<Item>)
    ensures PackFrom(batch, []) == Flushed(batch) == if batch == [] then [] else [Batch(batch, true)]
    ensures TotalLen([]) == 0
  {}

  /** One item's worth of packing. */
  lemma PackStep(done: seq<Batch>, batch: seq<Item>, item: Item, rest: seq<Item>)
    requires TotalLen(batch) <= MAX_RECORD_PLAINTEXT
    ensures var flushed := done + Flushed(batch);
            done + PackFrom(batch, [item] + rest) ==
              if Need(item) > MAX_RECORD_PLAINTEXT then flushed + [Batch([item], false)] + PackFrom([], rest)
              else if TotalLen(batch) + Need(item) > MAX_RECORD_PLAINTEXT then flushed + PackFrom([] + [item], rest)
              else done + PackFrom(batch + [item], rest)
  {
    assert ([item] + rest)[1..] == rest;
    assert [] + [item] == [item];
  }

  lemma OneMoreEntry(setup: Setup, first: nat, entries: seq<Entry>, e: Entry, done: seq<Batch>, b: Batch)
    requires SealsAll(setup, first, entries, done)
    requires SealsBatch(setup, first + |done|, e, b)
    ensures SealsAll(setup, first, entries + [e], done + [b])
  {
    forall i | 0 <= i < |done| + 1
      ensures SealsBatch(setup, first + i, (entries + [e])[i], (done + [b])[i])
    {
      if i < |done| {
        assert SealsBatch(setup, first + i, entries[i], done[i]);
      }
    }
  }

  lemma OneMoreRecord(entries: seq<Entry>, e: Entry)
    ensures WireOf(entries + [e]) == WireOf(entries) + RecordBytes(AppDataRecord(e.ct))
  {
    WireAppend(entries, [e]);
    assert WireOf([e]) == RecordBytes(AppDataRecord(e.ct)) + WireOf([]);
  }

  /** The length on the wire of every record whose frames fit is its target, never above the longest record
      of a real TLS 1.3 connection; only an oversized frame travels unpadded. */
  lemma RecordLengths(setup: Setup, counter: nat, e: Entry, b: Batch)
    requires ValidBoundaries(setup.boundaries) && SealsBatch(setup, counter, e, b)
    ensures TotalLen(b.frames) <= MAX_RECORD_PLAINTEXT ==>
              |e.ct| == TargetRecordLen(setup.boundaries, TotalLen(b.frames)) <= MAX_RECORD_LEN
    ensures TotalLen(b.frames) > MAX_RECORD_PLAINTEXT ==> |e.ct| == TotalLen(b.frames) + AEAD_TAG_LEN
  {
    var pad := BatchPad(setup.boundaries, b);
    PlainLen(setup.tag, b.frames, e.plain[|e.plain| - pad..]);
    if b.shaped {
      PaddedRecordHitsTarget(setup.boundaries, TotalLen(b.frames));
    }
  }

  // -------------------------------------------------------------- receiving

  /** Counter of the stream and plaintext not parsed yet. */
  datatype Decoder = Decoder(counter: nat, staging: bytes)

  datatype DropReason = RecordRefused | AeadFailed | FrameRefused

  /** What one decoding step leaves behind: decoder, undecoded input, and its answer. */
  datatype Decoded = Decoded(rx: Decoder, input: bytes, answer: Result<Option<Frame>, DropReason>)

  /** Takes one frame from what is staged; a frame that does not parse empties the staging. */
  function TakeFrame(rx: Decoder): (Decoder, Result<Option<Frame>, DropReason>)
  {
    match ParseFrame(rx.staging)
    case NeedMore => (rx, Ok(None))
    case Bad(_) => (rx.(staging := []), Err(FrameRefused))
    case Got(f, rest) => (rx.(staging := rest), Ok(Some(f)))
  }

  function DecodeRecords(log: seq<Entry>, key: Secret, iv: Iv, rx: Decoder, input: bytes): Decoded
    decreases |input|
  {
    match UnpackAppData(input)
    case NothingYet => Decoded(rx, input, Ok(None))
    case Refused(rest) => Decoded(rx, rest, Err(RecordRefused))
    case Payload(ct, rest) =>
      match OpenAt(log, key, iv, rx.counter, ct)
      case None => Decoded(rx.(staging := []), rest, Err(AeadFailed))
      case Some(plain) =>
        var (rx', answer) := TakeFrame(Decoder(rx.counter + 1, rx.staging + plain));
        if answer == Ok(None) then DecodeRecords(log, key, iv, rx', rest)
        else Decoded(rx', rest, answer)
  }

  /** One call: first what is staged, then record after record until a frame is complete. */
  function DecodeInboundOf(log: seq<Entry>, key: Secret, iv: Iv, rx: Decoder, input: bytes): Decoded
  {
    if rx.staging != [] && TakeFrame(rx).1 != Ok(None) then
      var (rx', answer) := TakeFrame(rx);
      Decoded(rx', input, answer)
    else
      DecodeRecords(log, key, iv, rx, input)
  }

  class RxCodec {
    const crypto: ChaChaStream
    const staging: BytesMut

    function Value(): Decoder
      reads crypto, staging
    {
      Decoder(crypto.counter, staging.data)
    }

    constructor (crypto: ChaChaStream)
      ensures this.crypto == crypto && fresh(staging)
      ensures Value() == Decoder(crypto.counter, [])
    {
      this.crypto := crypto;
      staging := new BytesMut([]);
    }

    method TryParseFrame() returns (r: Result<Option<Frame>, DropReason>)
      modifies staging
      ensures (Value(), r) == TakeFrame(old(Value()))
    {
      var parsed := ParseFrom(staging);
      match parsed
      case Ok(frame) => r := Ok(frame);
      case Err(_) =>
        staging.data := [];
        r := Err(FrameRefused);
    }

    /** Decrypts one record's payload behind what is staged already. */
    method DecryptInto(ct: bytes) returns (ok: bool)
      requires crypto.counter + 1 < U64_SIZE
      modifies crypto, staging
      ensures match OpenAt(crypto.aead.log, crypto.key, crypto.baseIv, old(crypto.counter), ct)
              case None => !ok && Value() == old(Value())
              case Some(plain) => ok && Value() == Decoder(old(crypto.counter) + 1, old(staging.data) + plain)
    {
      var startIdx := |staging.data|;
      staging.PutSlice(ct);
      var dataToDecrypt := new BytesMut(staging.data[startIdx..]);
      assert dataToDecrypt.data == ct;
      staging.data := staging.data[..startIdx];
      ok := crypto.Decrypt(dataToDecrypt);
      if ok {
        staging.PutSlice(dataToDecrypt.data);
      }
    }

    method DecodeInbound(buffer: BytesMut) returns (r: Result<Option<Frame>, DropReason>)
      requires buffer != staging && crypto.counter + |buffer.data| + 1 < U64_SIZE
      modifies crypto, staging, buffer
      ensures Decoded(Value(), buffer.data, r)
              == DecodeInboundOf(crypto.aead.log, crypto.key, crypto.baseIv, old(Value()), old(buffer.data))
    {
      hide UnpackAppData, OpenAt, ParseFrame;
      if staging.data != [] {
        var frame := TryParseFrame();
        if frame != Ok(None) {
          return frame;
        }
      }
      ghost var log, key, iv := crypto.aead.log, crypto.key, crypto.baseIv;
      ghost var goal := DecodeRecords(log, key, iv, Value(), buffer.data);
      assert goal == DecodeInboundOf(log, key, iv, old(Value()), old(buffer.data));
      while true
        invariant crypto.aead.log == log && crypto.counter + |buffer.data| + 1 < U64_SIZE
        invariant DecodeRecords(log, key, iv, Value(), buffer.data) == goal
        decreases |buffer.data|
      {
        var record := UnpackAppDataFrom(buffer);
        match record {
          case Err(_) => return Err(RecordRefused);
          case Ok(None) => return Ok(None);
          case Ok(Some(ct)) =>
            var ok := DecryptInto(ct);
            if !ok {
              staging.data := [];
              return Err(AeadFailed);
            }
            var frame := TryParseFrame();
            if frame != Ok(None) {
              return frame;
            }
        }
      }
    }
  }
}
