/** What the batcher promises: it loses nothing, uses as few records as possible, and what one side
    encodes the other decodes (`engine/src/nrxp/codec.rs`, lines 187-254 and 304-444). */
module Packing {
  import opened Bytes
  import opened Crypto
  import opened Frames
  import opened ChaChaStreams
  import opened PadShapers
  import opened Codecs
  import opened CodecRuns

  function FramesOf(batches: seq<Batch>): seq<Item>
  {
    if batches == [] then [] else batches[0].frames + FramesOf(batches[1..])
  }

  lemma {:induction false} FramesAppend(a: seq<Batch>, b: seq<Batch>)
    ensures FramesOf(a + b) == FramesOf(a) + FramesOf(b)
  {
    if a == [] {
      assert a + b == b;
    } else {
      assert (a + b)[1..] == a[1..] + b;
      FramesAppend(a[1..], b);
    }
  }

  /** Every item goes into exactly one record, and the order is kept. */
  lemma {:induction false} PackFromKeepsItems(batch: seq<Item>, items: seq<Item>)
    ensures FramesOf(PackFrom(batch, items)) == batch + items
    decreases items
  {
    hide FramesOf, Flushed, TotalLen, Need;
    FramesOfFlushed(batch);
    if items == [] {
      assert batch + items == batch;
    } else {
      var item, rest := items[0], items[1..];
      assert items == [item] + rest;
      if Need(item) > MAX_RECORD_PLAINTEXT {
        PackFromKeepsItems([], rest);
        FramesOfOne(Batch([item], false));
        FramesAppend(Flushed(batch), [Batch([item], false)]);
        FramesAppend(Flushed(batch) + [Batch([item], false)], PackFrom([], rest));
        assert batch + [item] + ([] + rest) == batch + items;
      } else if TotalLen(batch) + Need(item) > MAX_RECORD_PLAINTEXT {
        PackFromKeepsItems([item], rest);
        FramesAppend(Flushed(batch), PackFrom([item], rest));
      } else {
        PackFromKeepsItems(batch + [item], rest);
        assert batch + [item] + rest == batch + items;
      }
    }
  }

  lemma FramesOfOne(b: Batch)
    ensures FramesOf([b]) == b.frames
  {}

  lemma FramesOfFlushed(batch: seq<Item>)
    ensures FramesOf(Flushed(batch)) == batch
  {}

  // ------------------------------------------------------------- optimality

  /** A way of cutting the items into records, each holding at most a record's plaintext or one
      frame alone. */
  ghost predicate ValidSplit(parts: seq<seq<Item>>, items: seq<Item>)
  {
    if parts == [] then items == []
    else
      && parts[0] != [] && parts[0] <= items
      && (TotalLen(parts[0]) <= MAX_RECORD_PLAINTEXT || |parts[0]| == 1)
      && ValidSplit(parts[1..], items[|parts[0]|..])
  }

  function Count(batch: seq<Item>, items: seq<Item>): nat
  {
    |PackFrom(batch, items)|
  }

  /** A fuller batch never leads to fewer records, and to at most one more. */
  lemma {:induction false} FullerIsWorseByOne(a: seq<Item>, b: seq<Item>, items: seq<Item>)
    requires TotalLen(a) <= TotalLen(b) <= MAX_RECORD_PLAINTEXT
    ensures Count(a, items) <= Count(b, items) <= Count(a, items) + 1
    decreases items
  {
    if items != [] {
      var item, rest := items[0], items[1..];
      TotalLenAppend(a, [item]);
      TotalLenAppend(b, [item]);
      assert TotalLen([item]) == Need(item);
      if Need(item) <= MAX_RECORD_PLAINTEXT {
        if TotalLen(b) + Need(item) <= MAX_RECORD_PLAINTEXT {
          FullerIsWorseByOne(a + [item], b + [item], rest);
        } else if TotalLen(a) + Need(item) <= MAX_RECORD_PLAINTEXT {
          FullerIsWorseByOne([item], a + [item], rest);
        }
      }
    }
  }

  /** Items that fit the batch are all taken into it. */
  lemma {:induction false} Absorbs(batch: seq<Item>, part: seq<Item>, rest: seq<Item>)
    requires TotalLen(batch) + TotalLen(part) <= MAX_RECORD_PLAINTEXT
    ensures PackFrom(batch, part + rest) == PackFrom(batch + part, rest)
    decreases part
  {
    if part == [] {
      assert part + rest == rest && batch + part == batch;
    } else {
      TotalLenAppend(batch, [part[0]]);
      assert TotalLen([part[0]]) == Need(part[0]);
      assert (part + rest)[1..] == part[1..] + rest;
      assert batch + part == (batch + [part[0]]) + part[1..];
      Absorbs(batch + [part[0]], part[1..], rest);
    }
  }

  /** No split of the same items uses fewer records than the greedy one. */
  lemma {:induction false} GreedyIsOptimal(items: seq<Item>, parts: seq<seq<Item>>)
    requires ValidSplit(parts, items)
    ensures |Pack(items)| <= |parts|
    decreases |parts|
  {
    if parts != [] {
      var part, rest := parts[0], items[|parts[0]|..];
      assert items == part + rest;
      GreedyIsOptimal(rest, parts[1..]);
      if TotalLen(part) <= MAX_RECORD_PLAINTEXT {
        Absorbs([], part, rest);
        assert [] + part == part;
        FullerIsWorseByOne([], part, rest);
      } else {
        assert part == [items[0]] && rest == items[1..];
        assert TotalLen(part) == Need(items[0]);
      }
    }
  }

  function Parts(batches: seq<Batch>): seq<seq<Item>>
  {
    if batches == [] then [] else [batches[0].frames] + Parts(batches[1..])
  }

  lemma {:induction false} BatchesSplit(batches: seq<Batch>)
    requires forall b :: b in batches ==> b.frames != [] && (TotalLen(b.frames) <= MAX_RECORD_PLAINTEXT || |b.frames| == 1)
    ensures ValidSplit(Parts(batches), FramesOf(batches)) && |Parts(batches)| == |batches|
  {
    if batches != [] {
      BatchesSplit(batches[1..]);
      assert Parts(batches)[1..] == Parts(batches[1..]);
      assert FramesOf(batches)[|batches[0].frames|..] == FramesOf(batches[1..]);
    }
  }

  lemma {:induction false} UnshapedIsAlone(batch: seq<Item>, items: seq<Item>)
    ensures forall b :: b in PackFrom(batch, items) && !b.shaped ==> |b.frames| == 1
    decreases items
  {
    if items != [] {
      UnshapedIsAlone([], items[1..]);
      UnshapedIsAlone([items[0]], items[1..]);
      UnshapedIsAlone(batch + [items[0]], items[1..]);
    }
  }

  /** The greedy result is itself such a split, so the minimum is attained. */
  lemma GreedyIsASplit(items: seq<Item>)
    ensures ValidSplit(Parts(Pack(items)), items) && |Parts(Pack(items))| == |Pack(items)|
  {
    PackFromFits([], items);
    UnshapedIsAlone([], items);
    PackFromKeepsItems([], items);
    assert [] + items == items;
    BatchesSplit(Pack(items));
  }

  // -------------------------------------------------- encode, then decode

  /** One call of the encoder: a batch or a cover record, what it was given and the log entries it made. */
  datatype Call =
    | Batched(items: seq<Item>, tag: Tag, entries: seq<Entry>)
    | Cover(target: nat, tag: Tag, entry: Entry)

  ghost predicate Made(conn: Conn, boundaries: seq<nat>, counter: nat, c: Call)
  {
    match c
    case Batched(items, tag, entries) => SealsAll(Setup(conn.key, conn.iv, tag, boundaries), counter, entries, Pack(items))
    case Cover(target, tag, entry) => Seals(entry, conn.key, conn.iv, counter, tag, [COVER_ITEM], CoverPad(target))
  }

  function EntriesOf(c: Call): seq<Entry>
  {
    match c
    case Batched(_, _, entries) => entries
    case Cover(_, _, entry) => [entry]
  }

  /** What the peer should get out of the call. */
  function ItemsOf(c: Call): seq<Item>
  {
    match c
    case Batched(items, _, _) => items
    case Cover(_, _, _) => [Item(0, FrameType.Cover, [])]
  }

  /** The calls follow one another on one stream, the first starting at this counter. */
  ghost predicate CallsFrom(conn: Conn, boundaries: seq<nat>, counter: nat, calls: seq<Call>)
    decreases |calls|
  {
    calls == [] ||
    (Made(conn, boundaries, counter, calls[0]) && CallsFrom(conn, boundaries, counter + |EntriesOf(calls[0])|, calls[1..]))
  }

  function AllEntries(calls: seq<Call>): seq<Entry>
  {
    if calls == [] then [] else EntriesOf(calls[0]) + AllEntries(calls[1..])
  }

  function AllItems(calls: seq<Call>): seq<Item>
  {
    if calls == [] then [] else ItemsOf(calls[0]) + AllItems(calls[1..])
  }

  /** The longest payload whose frame still fits the length field of a record. */
  const MAX_RECORD_PAYLOAD: nat := 65494

  ghost predicate Sendable(items: seq<Item>)
  {
    forall f :: f in items ==> |f.payload| <= MAX_RECORD_PAYLOAD
  }

  /** The log entry is exactly this record, under this number. */
  ghost predicate IsRecord(conn: Conn, counter: nat, e: Entry, r: Sent)
  {
    GoodRecord(r) && e == StreamEntry(conn.key, conn.iv, counter, RecordPlain(r), r.ct)
  }

  /** The log entries are exactly these records, numbered from `counter` on. */
  ghost predicate Same(conn: Conn, counter: nat, entries: seq<Entry>, sent: seq<Sent>)
  {
    |entries| == |sent| && forall i :: 0 <= i < |sent| ==> IsRecord(conn, counter + i, entries[i], sent[i])
  }

  function RecordPlain(r: Sent): bytes
  {
    if r.frames != [] && |r.padding| < U16_SIZE then PlainOf(r.tag, r.frames, r.padding) else []
  }

  /** One sealed batch as a record, which is short enough exactly if its items are. */
  lemma BatchIsRecord(setup: Setup, counter: nat, e: Entry, b: Batch) returns (r: Sent)
    requires ValidBoundaries(setup.boundaries) && SealsBatch(setup, counter, e, b)
    requires b.shaped || |b.frames| == 1
    ensures IsRecord(Conn(setup.key, setup.iv), counter, e, r) && r.frames == b.frames
    ensures Deliverable(r) <==> Sendable(b.frames)
  {
    var pad := BatchPad(setup.boundaries, b);
    r := Sent(setup.tag, b.frames, e.plain[|e.plain| - pad..], e.ct);
    RecordLengths(setup, counter, e, b);
    PlainLen(r.tag, r.frames, r.padding);
    PayloadsFit(b.frames);
    if !b.shaped {
      assert b.frames == [b.frames[0]];
      assert TotalLen(b.frames) == Need(b.frames[0]) + TotalLen([]);
    }
  }

  /** A cover record is never too long. */
  lemma CoverIsRecord(conn: Conn, counter: nat, e: Entry, tag: Tag, pad: nat) returns (r: Sent)
    requires Seals(e, conn.key, conn.iv, counter, tag, [COVER_ITEM], pad) && pad <= MAX_RECORD_LEN - EMPTY_COVER_RECORD
    ensures IsRecord(conn, counter, e, r) && r.frames == [COVER_ITEM] && Deliverable(r)
  {
    r := Sent(tag, [COVER_ITEM], e.plain[|e.plain| - pad..], e.ct);
    PlainLen(tag, [COVER_ITEM], r.padding);
    assert TotalLen([COVER_ITEM]) == Need(COVER_ITEM) + TotalLen([]);
  }

  lemma RestIsSealed(setup: Setup, counter: nat, entries: seq<Entry>, batches: seq<Batch>)
    requires SealsAll(setup, counter, entries, batches) && batches != []
    ensures entries != [] && SealsBatch(setup, counter, entries[0], batches[0])
    ensures SealsAll(setup, counter + 1, entries[1..], batches[1..])
  {}

  /** Only a frame alone may go unshaped. */
  ghost predicate Plausible(batches: seq<Batch>)
  {
    forall b :: b in batches ==> b.shaped || |b.frames| == 1
  }

  lemma {:induction false} BatchesAreRecords(setup: Setup, counter: nat, entries: seq<Entry>, batches: seq<Batch>)
      returns (sent: seq<Sent>)
    requires ValidBoundaries(setup.boundaries) && SealsAll(setup, counter, entries, batches) && Plausible(batches)
    ensures Same(Conn(setup.key, setup.iv), counter, entries, sent) && Items(sent) == FramesOf(batches)
    ensures AllDeliverable(sent) <==> Sendable(FramesOf(batches))
    decreases |batches|
  {
    hide SealsAll, SealsBatch, Plausible, Sendable, Same, IsRecord, Items, ValidBoundaries, Deliverable, AllDeliverable;
    var conn := Conn(setup.key, setup.iv);
    if batches == [] {
      NothingSealed(setup, counter, entries);
      sent := [];
      SameSmall(conn, counter);
    } else {
      RestIsPlausible(batches);
      RestIsSealed(setup, counter, entries, batches);
      var r := BatchIsRecord(setup, counter, entries[0], batches[0]);
      var more := BatchesAreRecords(setup, counter + 1, entries[1..], batches[1..]);
      sent := [r] + more;
      SameOne(conn, counter, entries[0], r);
      JoinSame(conn, counter, [entries[0]], [r], entries[1..], more);
      assert entries == [entries[0]] + entries[1..];
      ItemsAppend([r], more);
      SendableParts(batches[0].frames, FramesOf(batches[1..]));
      DeliverableParts([r], more);
    }
  }

  lemma NothingSealed(setup: Setup, counter: nat, entries: seq<Entry>)
    requires SealsAll(setup, counter, entries, [])
    ensures entries == []
  {}

  lemma RestIsPlausible(batches: seq<Batch>)
    requires Plausible(batches) && batches != []
    ensures Plausible(batches[1..])
    ensures batches[0].shaped || |batches[0].frames| == 1
  {}

  lemma SameSmall(conn: Conn, counter: nat)
    ensures Same(conn, counter, [], []) && Items([]) == [] && AllDeliverable([]) && Sendable([])
  {}

  lemma SameOne(conn: Conn, counter: nat, e: Entry, r: Sent)
    requires IsRecord(conn, counter, e, r)
    ensures Same(conn, counter, [e], [r]) && Items([r]) == r.frames && (AllDeliverable([r]) <==> Deliverable(r))
  {}

  lemma DeliverableParts(a: seq<Sent>, b: seq<Sent>)
    ensures AllDeliverable(a + b) <==> AllDeliverable(a) && AllDeliverable(b)
  {
    hide Deliverable;
    if AllDeliverable(a + b) {
      assert forall i :: 0 <= i < |a| ==> a[i] == (a + b)[i];
      assert forall i :: 0 <= i < |b| ==> b[i] == (a + b)[|a| + i];
    }
  }

  lemma JoinSame(conn: Conn, counter: nat, entries: seq<Entry>, sent: seq<Sent>, moreEntries: seq<Entry>, more: seq<Sent>)
    requires Same(conn, counter, entries, sent) && Same(conn, counter + |sent|, moreEntries, more)
    ensures Same(conn, counter, entries + moreEntries, sent + more)
  {
    hide IsRecord;
    var allEntries, all := entries + moreEntries, sent + more;
    forall i | 0 <= i < |all|
      ensures IsRecord(conn, counter + i, allEntries[i], all[i])
    {
      if i < |sent| {
        assert IsRecord(conn, counter + i, entries[i], sent[i]);
      } else {
        assert IsRecord(conn, counter + |sent| + (i - |sent|), moreEntries[i - |sent|], more[i - |sent|]);
      }
    }
  }

  lemma PackIsPlausible(items: seq<Item>)
    ensures Plausible(Pack(items)) && FramesOf(Pack(items)) == items
  {
    PackFromKeepsItems([], items);
    UnshapedIsAlone([], items);
    assert [] + items == items;
  }

  lemma CallIsRecords(conn: Conn, boundaries: seq<nat>, counter: nat, c: Call) returns (sent: seq<Sent>)
    requires ValidBoundaries(boundaries) && Made(conn, boundaries, counter, c)
    ensures Same(conn, counter, EntriesOf(c), sent) && Items(sent) == ItemsOf(c)
    ensures AllDeliverable(sent) <==> Sendable(ItemsOf(c))
  {
    hide ValidBoundaries, SealsAll, Seals, Pack, Same, Items, Plausible, Deliverable, AllDeliverable, IsRecord;
    match c
    case Batched(items, tag, entries) =>
      PackIsPlausible(items);
      sent := BatchesAreRecords(Setup(conn.key, conn.iv, tag, boundaries), counter, entries, Pack(items));
    case Cover(target, tag, entry) =>
      var r := CoverIsRecord(conn, counter, entry, tag, CoverPad(target));
      sent := [r];
      SameOne(conn, counter, entry, r);
  }

  lemma {:induction false} CallsAreRecords(conn: Conn, boundaries: seq<nat>, counter: nat, calls: seq<Call>)
      returns (sent: seq<Sent>)
    requires ValidBoundaries(boundaries) && CallsFrom(conn, boundaries, counter, calls)
    ensures Same(conn, counter, AllEntries(calls), sent) && Items(sent) == AllItems(calls)
    ensures AllDeliverable(sent) <==> Sendable(AllItems(calls))
    decreases |calls|
  {
    hide ValidBoundaries, Made, Same, Items, Sendable, AllDeliverable;
    if calls == [] {
      sent := [];
      SameSmall(conn, counter);
    } else {
      var c := calls[0];
      var first := CallIsRecords(conn, boundaries, counter, c);
      var more := CallsAreRecords(conn, boundaries, counter + |EntriesOf(c)|, calls[1..]);
      sent := first + more;
      SameLength(conn, counter, EntriesOf(c), first);
      JoinSame(conn, counter, EntriesOf(c), first, AllEntries(calls[1..]), more);
      ItemsAppend(first, more);
      SendableParts(ItemsOf(c), AllItems(calls[1..]));
      DeliverableParts(first, more);
    }
  }

  lemma SameLength(conn: Conn, counter: nat, entries: seq<Entry>, sent: seq<Sent>)
    requires Same(conn, counter, entries, sent)
    ensures |entries| == |sent|
  {}

  lemma SendableParts(a: seq<Item>, b: seq<Item>)
    ensures Sendable(a + b) <==> Sendable(a) && Sendable(b)
  {
    assert forall f :: f in a ==> f in a + b;
    assert forall f :: f in b ==> f in a + b;
  }

  lemma {:induction false} SameWire(conn: Conn, counter: nat, entries: seq<Entry>, sent: seq<Sent>)
    requires Same(conn, counter, entries, sent)
    ensures WireOf(entries) == Wire(sent)
    decreases |sent|
  {
    if sent != [] {
      assert IsRecord(conn, counter + 0, entries[0], sent[0]);
      forall i | 0 <= i < |sent[1..]|
        ensures IsRecord(conn, counter + 1 + i, entries[1..][i], sent[1..][i])
      {
        assert IsRecord(conn, counter + (1 + i), entries[1 + i], sent[1 + i]);
      }
      SameWire(conn, counter + 1, entries[1..], sent[1..]);
    }
  }

  lemma SameLog(conn: Conn, entries: seq<Entry>, sent: seq<Sent>, log: seq<Entry>)
    requires Same(conn, 0, entries, sent) && |sent| < U64_SIZE
    requires forall e :: e in entries ==> e in log
    requires forall e :: e in log && e.key == conn.key ==> e in entries
    ensures LogHolds(conn, sent, log)
  {
    forall i | 0 <= i < |sent|
      ensures GoodRecord(sent[i]) && EntryOf(conn, sent, i) == entries[i]
    {
      assert IsRecord(conn, 0 + i, entries[i], sent[i]);
    }
    hide EntryOf, GoodRecord;
    forall k | 0 <= k < |sent|
      ensures EntryOf(conn, sent, k) in log
    {
      assert entries[k] in entries;
    }
    forall e | e in log && e.key == conn.key
      ensures exists k :: 0 <= k < |sent| && e == EntryOf(conn, sent, k)
    {
      var k :| 0 <= k < |entries| && entries[k] == e;
      assert e == EntryOf(conn, sent, k);
    }
  }

  /** Encode, then decode: for any sequence of encoder calls, batches and cover records mixed, and any
      cutting of their bytes into reads, with anything sealed under other keys beside them, the reader
      returns the items of all calls in order if and only if every payload is sendable; no byte and no
      staged frame is left then, and both counters agree. */
  lemma EncodeDecodeRoundTrip(conn: Conn, boundaries: seq<nat>, calls: seq<Call>, log: seq<Entry>, chunks: seq<bytes>)
    requires ValidBoundaries(boundaries) && CallsFrom(conn, boundaries, 0, calls)
    requires |AllEntries(calls)| < U64_SIZE
    requires forall e :: e in AllEntries(calls) ==> e in log
    requires forall e :: e in log && e.key == conn.key ==> e in AllEntries(calls)
    requires Concat(chunks) == WireOf(AllEntries(calls))
    ensures Sendable(AllItems(calls)) ==>
              FeedAll(log, conn, Decoder(0, []), [], chunks) == Drained(Decoder(|AllEntries(calls)|, []), [], AllItems(calls), false)
    ensures FeedAll(log, conn, Decoder(0, []), [], chunks).items == AllItems(calls) <==> Sendable(AllItems(calls))
  {
    var sent := CallsAreRecords(conn, boundaries, 0, calls);
    SameWire(conn, 0, AllEntries(calls), sent);
    SameLength(conn, 0, AllEntries(calls), sent);
    SameLog(conn, AllEntries(calls), sent, log);
    hide *;
    StreamRoundTrip(conn, sent, log, chunks);
  }
}
