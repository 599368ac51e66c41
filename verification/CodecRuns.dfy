/** Whole runs of the TCP leg: what a receiver can be made to return by any byte stream, and what it
    returns when the stream is the sender's own, however it is cut. */
module CodecRuns {
  import opened Wrappers
  import opened Bytes
  import opened Crypto
  import opened Frames
  import opened TlsRecords
  import opened ChaChaStreams
  import opened Codecs

  datatype Conn = Conn(key: Secret, iv: Iv)

  /** One record the sender has sealed. */
  datatype Sent = Sent(tag: Tag, frames: seq<Item>, padding: bytes, ct: bytes)

  /** A record as the cipher leaves it; its frames may be of any size. */
  ghost predicate GoodRecord(r: Sent)
  {
    r.frames != [] && |r.padding| < U16_SIZE && |r.ct| == TotalLen(r.frames) + |r.padding| + TAG_LEN
  }

  ghost predicate GoodRecords(sent: seq<Sent>)
  {
    |sent| < U64_SIZE && forall i :: 0 <= i < |sent| ==> GoodRecord(sent[i])
  }

  function EntryOf(conn: Conn, sent: seq<Sent>, k: nat): Entry
    requires k < |sent| && sent[k].frames != [] && |sent[k].padding| < U16_SIZE
  {
    StreamEntry(conn.key, conn.iv, k, PlainOf(sent[k].tag, sent[k].frames, sent[k].padding), sent[k].ct)
  }

  /** The items of these records, in order. */
  function Items(sent: seq<Sent>): seq<Item>
  {
    if sent == [] then [] else Items(sent[..|sent| - 1]) + sent[|sent| - 1].frames
  }

  lemma {:induction false} ItemsAppend(sent: seq<Sent>, more: seq<Sent>)
    ensures Items(sent + more) == Items(sent) + Items(more)
  {
    if more == [] {
      assert sent + more == sent;
    } else {
      var n := |more| - 1;
      assert (sent + more)[..|sent + more| - 1] == sent + more[..n];
      ItemsAppend(sent, more[..n]);
    }
  }

  lemma ItemsUpTo(sent: seq<Sent>, k: nat)
    requires k < |sent|
    ensures Items(sent[..k + 1]) == Items(sent[..k]) + sent[k].frames
  {
    assert sent[..k + 1][..k] == sent[..k];
  }

  lemma ItemsPrefix(sent: seq<Sent>, k: nat)
    requires k <= |sent|
    ensures Items(sent[..k]) <= Items(sent)
  {
    var front, back := sent[..k], sent[k..];
    assert sent == front + back;
    hide Items;
    ItemsAppend(front, back);
  }

  function ItemOf(f: Frame): Item
  {
    Item(f.header.streamId, f.header.frameType, f.payload)
  }

  // -------------------------------------------------- one record, frame by frame

  /** What remains staged while `left` is still to be taken from a record. */
  function Staged(tag: Tag, left: seq<Item>, padding: bytes): bytes
    requires |padding| < U16_SIZE
  {
    if left == [] then [] else PlainOf(tag, left, padding)
  }

  /** The first frame of a record's plaintext parses, its tag being the record's and its padding invisible,
      and leaves the others. */
  lemma TakesFirst(tag: Tag, left: seq<Item>, padding: bytes)
    requires left != [] && |padding| < U16_SIZE && |left[0].payload| < U16_SIZE
    ensures ParseFrame(PlainOf(tag, left, padding)).Got?
    ensures ItemOf(ParseFrame(PlainOf(tag, left, padding)).value) == left[0]
    ensures ParseFrame(PlainOf(tag, left, padding)).value.header.authTag == tag
    ensures ParseFrame(PlainOf(tag, left, padding)).rest == Staged(tag, left[1..], padding)
  {
    hide FrameBytes, ParseFrame;
    var s := PlainOf(tag, left, padding);
    if |left| == 1 {
      assert left[..0] == [];
      assert s == FrameBytes(tag, left[0], padding) + [];
      FrameRoundTrip(tag, left[0], padding, []);
    } else {
      var n := |left| - 1;
      assert left[..n][0] == left[0] && left[..n][1..] == left[1..][..n - 1];
      var rest := PlainOf(tag, left[1..], padding);
      assert s == FrameBytes(tag, left[0], []) + rest;
      FrameRoundTrip(tag, left[0], [], rest);
    }
  }

  lemma StagedNotEmpty(tag: Tag, left: seq<Item>, padding: bytes)
    requires left != [] && |padding| < U16_SIZE
    ensures Staged(tag, left, padding) != []
  {}

  // ----------------------------------------------------------------- log

  /** Under the connection's key the log holds the sender's records, all of them and nothing else. */
  ghost predicate LogHolds(conn: Conn, sent: seq<Sent>, log: seq<Entry>)
  {
    && GoodRecords(sent)
    && (forall k :: 0 <= k < |sent| ==> EntryOf(conn, sent, k) in log)
    && (forall e :: e in log && e.key == conn.key ==> exists k :: 0 <= k < |sent| && e == EntryOf(conn, sent, k))
  }

  /** With the counter at `n` nothing opens but record number `n` itself. */
  lemma OnlyNextRecordOpens(conn: Conn, sent: seq<Sent>, log: seq<Entry>, n: nat, ct: bytes)
    requires LogHolds(conn, sent, log) && n <= |sent|
    ensures OpenAt(log, conn.key, conn.iv, n, ct).Some? <==> n < |sent| && ct == sent[n].ct
    ensures OpenAt(log, conn.key, conn.iv, n, ct).Some? ==>
              OpenAt(log, conn.key, conn.iv, n, ct).value == PlainOf(sent[n].tag, sent[n].frames, sent[n].padding)
  {
    hide PlainOf, NonceOf;
    var nonce := NonceOf(conn.iv, n);
    var found := FindEntry(log, conn.key, nonce, nonce, ct);
    if found.Some? {
      var e := log[found.value];
      var k :| 0 <= k < |sent| && e == EntryOf(conn, sent, k);
      NonceInjective(conn.iv, k, n);
    }
    if n < |sent| && ct == sent[n].ct {
      assert Matches(EntryOf(conn, sent, n), conn.key, nonce, nonce, ct);
    }
  }

  // --------------------------------------------------------------- safety

  /** The decoder has returned a prefix of what was sent, and holds in its staging exactly the rest of
      the record it last decrypted. */
  ghost predicate DecoderInv(sent: seq<Sent>, rx: Decoder, returned: seq<Item>)
    requires GoodRecords(sent)
  {
    && rx.counter <= |sent|
    && returned <= Items(sent[..rx.counter])
    && var left := Items(sent[..rx.counter])[|returned|..];
    && (left == [] ==> rx.staging == [])
    && (left != [] ==> HoldsRest(sent, rx, left))
  }

  ghost predicate HoldsRest(sent: seq<Sent>, rx: Decoder, left: seq<Item>)
    requires GoodRecords(sent) && rx.counter <= |sent|
  {
    && rx.counter > 0 && Small(left)
    && rx.staging == Staged(sent[rx.counter - 1].tag, left, sent[rx.counter - 1].padding)
  }

  ghost predicate Small(items: seq<Item>)
  {
    forall f :: f in items ==> |f.payload| < U16_SIZE
  }

  lemma {:induction false} PayloadsFit(frames: seq<Item>)
    ensures forall f :: f in frames ==> Need(f) <= TotalLen(frames)
  {
    if frames != [] {
      PayloadsFit(frames[1..]);
    }
  }

  /** What arrives in one record holds only frames whose length fits their header. */
  lemma ShortRecordIsSmall(r: Sent)
    requires GoodRecord(r) && |r.ct| < U16_SIZE
    ensures Small(r.frames) && Small(r.frames[1..]) && |r.ct| >= MIN_APPLICATION_DATA
  {
    PayloadsFit(r.frames);
    assert r.frames[0] in r.frames;
  }

  function Answered(d: Decoded): seq<Item>
  {
    match d.answer
    case Ok(Some(f)) => [ItemOf(f)]
    case _ => []
  }

  lemma StagedFrameIsTaken(conn: Conn, sent: seq<Sent>, log: seq<Entry>, rx: Decoder, input: bytes, returned: seq<Item>)
    requires LogHolds(conn, sent, log) && DecoderInv(sent, rx, returned) && rx.staging != []
    ensures var d := DecodeInboundOf(log, conn.key, conn.iv, rx, input);
            && d.answer.Ok? && d.answer.value.Some? && d.input == input && d.rx.counter == rx.counter
            && DecoderInv(sent, d.rx, returned + Answered(d))
  {
    hide Items, PlainOf, ParseFrame, UnpackAppData;
    var all := Items(sent[..rx.counter]);
    var left := all[|returned|..];
    var r := sent[rx.counter - 1];
    TakesFirst(r.tag, left, r.padding);
    var d := DecodeInboundOf(log, conn.key, conn.iv, rx, input);
    assert returned + [left[0]] <= all;
    assert all[|returned + [left[0]]|..] == left[1..];
    assert d.rx == Decoder(rx.counter, Staged(r.tag, left[1..], r.padding));
  }

  /** The first record of the input, met with nothing staged: its first frame comes out, the others
      are staged. */
  lemma RecordIsOpened(conn: Conn, sent: seq<Sent>, log: seq<Entry>, n: nat, input: bytes)
    requires LogHolds(conn, sent, log) && n <= |sent|
    requires UnpackAppData(input).Payload? && OpenAt(log, conn.key, conn.iv, n, UnpackAppData(input).payload).Some?
    ensures n < |sent| && UnpackAppData(input).payload == sent[n].ct && |sent[n].ct| < U16_SIZE
    ensures var d := DecodeInboundOf(log, conn.key, conn.iv, Decoder(n, []), input);
            var r := sent[n];
            && Answered(d) == [r.frames[0]]
            && d.answer.Ok? && d.answer.value.Some? && ItemOf(d.answer.value.value) == r.frames[0]
            && d.rx == Decoder(n + 1, Staged(r.tag, r.frames[1..], r.padding))
            && d.input == UnpackAppData(input).rest
  {
    hide UnpackAppData, ParseFrame, OpenAt, PlainOf;
    OnlyNextRecordOpens(conn, sent, log, n, UnpackAppData(input).payload);
    var r := sent[n];
    assert GoodRecord(r);
    ShortRecordIsSmall(r);
    var plain := PlainOf(r.tag, r.frames, r.padding);
    assert [] + plain == plain;
    TakesFirst(r.tag, r.frames, r.padding);
  }

  lemma OpenedKeepsInv(sent: seq<Sent>, rx: Decoder, returned: seq<Item>)
    requires GoodRecords(sent) && DecoderInv(sent, rx, returned) && rx.staging == [] && rx.counter < |sent|
    requires |sent[rx.counter].ct| < U16_SIZE
    ensures var r := sent[rx.counter];
            DecoderInv(sent, Decoder(rx.counter + 1, Staged(r.tag, r.frames[1..], r.padding)), returned + [r.frames[0]])
  {
    var r := sent[rx.counter];
    assert GoodRecord(r);
    ShortRecordIsSmall(r);
    NothingLeft(sent, rx, returned);
    ItemsUpTo(sent, rx.counter);
    hide Items, PlainOf;
    var all := Items(sent[..rx.counter + 1]);
    assert returned + [r.frames[0]] <= all;
    assert all[|returned + [r.frames[0]]|..] == r.frames[1..];
  }

  /** Nothing staged means everything decrypted so far has been returned. */
  lemma NothingLeft(sent: seq<Sent>, rx: Decoder, returned: seq<Item>)
    requires GoodRecords(sent) && DecoderInv(sent, rx, returned) && rx.staging == []
    ensures returned == Items(sent[..rx.counter])
  {}

  /** Any call, on any input whatever, keeps the invariant; the record loop is only ever entered with
      an empty staging; and a call that ends in an error or asks for more leaves the decoder as it was. */
  lemma DecodeKeepsInv(conn: Conn, sent: seq<Sent>, log: seq<Entry>, rx: Decoder, input: bytes, returned: seq<Item>)
    requires LogHolds(conn, sent, log) && DecoderInv(sent, rx, returned)
    ensures var d := DecodeInboundOf(log, conn.key, conn.iv, rx, input);
            && DecoderInv(sent, d.rx, returned + Answered(d))
            && (rx.staging != [] ==> Answered(d) != [])
            && (Answered(d) == [] ==> d.rx == rx)
  {
    hide ParseFrame, UnpackAppData, OpenAt, Items, PlainOf;
    if rx.staging != [] {
      StagedFrameIsTaken(conn, sent, log, rx, input, returned);
    } else {
      assert returned + [] == returned;
      match UnpackAppData(input)
      case NothingYet =>
      case Refused(_) =>
      case Payload(ct, _) =>
        if OpenAt(log, conn.key, conn.iv, rx.counter, ct).Some? {
          RecordIsOpened(conn, sent, log, rx.counter, input);
          OpenedKeepsInv(sent, rx, returned);
        }
    }
  }

  /** More records sent do not disturb the decoder. */
  lemma SendingKeepsInv(sent: seq<Sent>, r: Sent, rx: Decoder, returned: seq<Item>)
    requires GoodRecords(sent) && GoodRecords(sent + [r]) && DecoderInv(sent, rx, returned)
    ensures DecoderInv(sent + [r], rx, returned)
  {
    assert (sent + [r])[..rx.counter] == sent[..rx.counter];
  }

  datatype System = System(sent: seq<Sent>, log: seq<Entry>, rx: Decoder, input: bytes, returned: seq<Item>)

  /** The network feeds the receiver any bytes; the reader may go on decoding after an error. */
  datatype Event =
    | Send(record: Sent)
    | SealForeign(entry: Entry)
    | Receive(chunk: bytes)
    | Decode

  const START: System := System([], [], Decoder(0, []), [], [])

  ghost predicate Possible(conn: Conn, s: System, e: Event)
  {
    match e
    case Send(r) => GoodRecord(r) && |s.sent| + 1 < U64_SIZE
    case SealForeign(entry) => entry.key != conn.key
    case _ => true
  }

  function Step(conn: Conn, s: System, e: Event): System
    requires e.Send? ==> e.record.frames != [] && |e.record.padding| < U16_SIZE
  {
    match e
    case Send(r) =>
      var sent := s.sent + [r];
      s.(sent := sent, log := s.log + [EntryOf(conn, sent, |s.sent|)])
    case SealForeign(entry) => s.(log := s.log + [entry])
    case Receive(chunk) => s.(input := s.input + chunk)
    case Decode =>
      var d := DecodeInboundOf(s.log, conn.key, conn.iv, s.rx, s.input);
      s.(rx := d.rx, input := d.input, returned := s.returned + Answered(d))
  }

  ghost predicate Inv(conn: Conn, s: System)
  {
    LogHolds(conn, s.sent, s.log) && DecoderInv(s.sent, s.rx, s.returned)
  }

  lemma EntryStays(conn: Conn, sent: seq<Sent>, r: Sent, k: nat)
    requires GoodRecords(sent) && k < |sent|
    ensures sent[k].frames != [] && |sent[k].padding| < U16_SIZE && (sent + [r])[k] == sent[k]
    ensures EntryOf(conn, sent + [r], k) == EntryOf(conn, sent, k)
  {}

  lemma SendKeepsLog(conn: Conn, s: System, r: Sent)
    requires LogHolds(conn, s.sent, s.log) && GoodRecord(r) && |s.sent| + 1 < U64_SIZE
    ensures LogHolds(conn, s.sent + [r], s.log + [EntryOf(conn, s.sent + [r], |s.sent|)])
  {
    hide EntryOf;
    var sent, log := s.sent + [r], s.log + [EntryOf(conn, s.sent + [r], |s.sent|)];
    forall k | 0 <= k < |sent|
      ensures EntryOf(conn, sent, k) in log
    {
      if k < |s.sent| {
        assert EntryOf(conn, s.sent, k) in s.log;
        EntryStays(conn, s.sent, r, k);
      } else {
        assert log[|s.log|] == EntryOf(conn, sent, k);
      }
    }
    forall e | e in log && e.key == conn.key
      ensures exists k :: 0 <= k < |sent| && e == EntryOf(conn, sent, k)
    {
      if e in s.log {
        var k :| 0 <= k < |s.sent| && e == EntryOf(conn, s.sent, k);
        EntryStays(conn, s.sent, r, k);
        assert e == EntryOf(conn, sent, k);
      } else {
        assert e == EntryOf(conn, sent, |s.sent|);
      }
    }
  }

  lemma ForeignKeepsLog(conn: Conn, s: System, entry: Entry)
    requires LogHolds(conn, s.sent, s.log) && entry.key != conn.key
    ensures LogHolds(conn, s.sent, s.log + [entry])
  {}

  ghost predicate Run(conn: Conn, events: seq<Event>, s: System)
  {
    if events == [] then s == START
    else
      var earlier, last := events[..|events| - 1], events[|events| - 1];
      exists mid :: Run(conn, earlier, mid) && Moves(conn, mid, last, s)
  }

  ghost predicate Moves(conn: Conn, s: System, e: Event, s': System)
  {
    Possible(conn, s, e) && s' == Step(conn, s, e)
  }

  lemma {:induction false} RunInv(conn: Conn, events: seq<Event>, s: System)
    requires Run(conn, events, s)
    ensures Inv(conn, s)
  {
    if events != [] {
      var earlier, last := events[..|events| - 1], events[|events| - 1];
      var mid :| Run(conn, earlier, mid) && Moves(conn, mid, last, s);
      RunInv(conn, earlier, mid);
      match last
      case Send(r) =>
        SendKeepsLog(conn, mid, r);
        SendingKeepsInv(mid.sent, r, mid.rx, mid.returned);
      case SealForeign(entry) => ForeignKeepsLog(conn, mid, entry);
      case Receive(_) =>
      case Decode => DecodeKeepsInv(conn, mid.sent, mid.log, mid.rx, mid.input, mid.returned);
    }
  }

  /** Prefix safety: whatever bytes the network feeds the receiver, and however often it goes on after
      an error, the items it has returned are a prefix of the items the sender had sealed by then. */
  lemma PrefixSafety(conn: Conn, events: seq<Event>, s: System)
    requires Run(conn, events, s)
    ensures s.returned <= Items(s.sent)
    ensures s.rx.counter <= |s.sent|
    ensures s.rx.staging == [] ==> s.returned == Items(s.sent[..s.rx.counter])
  {
    RunInv(conn, events, s);
    ItemsPrefix(s.sent, s.rx.counter);
    if s.rx.staging == [] {
      NothingLeft(s.sent, s.rx, s.returned);
    }
  }

  // ------------------------------------------------------- streaming round trip

  /** The reader's loop: decode until there is nothing more to decode. */
  datatype Drained = Drained(rx: Decoder, input: bytes, items: seq<Item>, failed: bool)

  function Prepend(items: seq<Item>, d: Drained): Drained
  {
    d.(items := items + d.items)
  }

  lemma PrependTwice(a: seq<Item>, b: seq<Item>, d: Drained)
    ensures Prepend(a, Prepend(b, d)) == Prepend(a + b, d)
    ensures Prepend([], d) == d
  {}

  lemma FrameShrinks(log: seq<Entry>, key: Secret, iv: Iv, rx: Decoder, input: bytes)
    ensures var d := DecodeInboundOf(log, key, iv, rx, input);
            Answered(d) != [] ==> |d.input| < |input| || (d.input == input && |d.rx.staging| < |rx.staging|)
  {
    hide ParseFrame, UnpackAppData;
    if rx.staging != [] && TakeFrame(rx).1 != Ok(None) {
      TakingShrinks(rx);
    } else {
      RecordsShrink(log, key, iv, rx, input);
    }
  }

  lemma TakingShrinks(rx: Decoder)
    ensures TakeFrame(rx).1.Ok? && TakeFrame(rx).1.value.Some? ==> |TakeFrame(rx).0.staging| < |rx.staging|
  {}

  lemma {:induction false} RecordsShrink(log: seq<Entry>, key: Secret, iv: Iv, rx: Decoder, input: bytes)
    ensures var d := DecodeRecords(log, key, iv, rx, input); Answered(d) != [] ==> |d.input| < |input|
    decreases |input|
  {
    hide ParseFrame, OpenAt, ParseRecord;
    match UnpackAppData(input)
    case Payload(ct, rest) =>
      match OpenAt(log, key, iv, rx.counter, ct) {
        case Some(plain) =>
          RecordsShrink(log, key, iv, TakeFrame(Decoder(rx.counter + 1, rx.staging + plain)).0, rest);
        case None =>
      }
    case _ =>
  }

  function Drain(log: seq<Entry>, conn: Conn, rx: Decoder, input: bytes): Drained
    decreases |input|, |rx.staging|
  {
    FrameShrinks(log, conn.key, conn.iv, rx, input);
    var d := DecodeInboundOf(log, conn.key, conn.iv, rx, input);
    match d.answer
    case Err(_) => Drained(d.rx, d.input, [], true)
    case Ok(None) => Drained(d.rx, d.input, [], false)
    case Ok(Some(f)) =>
      Prepend([ItemOf(f)], Drain(log, conn, d.rx, d.input))
  }

  /** The connection's reader: each chunk goes behind what is left of the input, then the loop runs. */
  function FeedAll(log: seq<Entry>, conn: Conn, rx: Decoder, input: bytes, chunks: seq<bytes>): Drained
    decreases |chunks|
  {
    if chunks == [] then Drained(rx, input, [], false)
    else
      var d := Drain(log, conn, rx, input + chunks[0]);
      if d.failed then d
      else
        Prepend(d.items, FeedAll(log, conn, d.rx, d.input, chunks[1..]))
  }

  lemma NothingFed(log: seq<Entry>, conn: Conn, rx: Decoder, input: bytes)
    ensures FeedAll(log, conn, rx, input, []) == Drained(rx, input, [], false)
  {}

  lemma FeedStep(log: seq<Entry>, conn: Conn, rx: Decoder, input: bytes, chunks: seq<bytes>) returns (d: Drained)
    requires chunks != []
    ensures d == Drain(log, conn, rx, input + chunks[0])
    ensures FeedAll(log, conn, rx, input, chunks) == if d.failed then d else Prepend(d.items, FeedAll(log, conn, d.rx, d.input, chunks[1..]))
  {
    hide Drain;
    d := Drain(log, conn, rx, input + chunks[0]);
  }

  function Concat(chunks: seq<bytes>): bytes
  {
    if chunks == [] then [] else chunks[0] + Concat(chunks[1..])
  }

  /** The bytes of these records on the wire. */
  function Wire(sent: seq<Sent>): bytes
  {
    if sent == [] then [] else RecordBytes(AppDataRecord(sent[0].ct)) + Wire(sent[1..])
  }

  /** A record short enough for the 16-bit length of its header. */
  ghost predicate Deliverable(r: Sent)
  {
    GoodRecord(r) && |r.ct| < U16_SIZE
  }

  ghost predicate AllDeliverable(sent: seq<Sent>)
  {
    forall i :: 0 <= i < |sent| ==> Deliverable(sent[i])
  }

  lemma DrainStep(log: seq<Entry>, conn: Conn, rx: Decoder, input: bytes, f: Frame)
    requires DecodeInboundOf(log, conn.key, conn.iv, rx, input).answer == Ok(Some(f))
    ensures var d := DecodeInboundOf(log, conn.key, conn.iv, rx, input);
            Drain(log, conn, rx, input) == Prepend([ItemOf(f)], Drain(log, conn, d.rx, d.input))
  {}

  lemma DrainStops(log: seq<Entry>, conn: Conn, rx: Decoder, input: bytes)
    requires rx.staging == [] && UnpackAppData(input) == NothingYet
    ensures Drain(log, conn, rx, input) == Drained(rx, input, [], false)
  {}

  lemma DecodeStaged(log: seq<Entry>, conn: Conn, tag: Tag, left: seq<Item>, padding: bytes, n: nat, input: bytes)
      returns (f: Frame)
    requires |padding| < U16_SIZE && Small(left) && left != []
    ensures ItemOf(f) == left[0]
    ensures DecodeInboundOf(log, conn.key, conn.iv, Decoder(n, Staged(tag, left, padding)), input)
            == Decoded(Decoder(n, Staged(tag, left[1..], padding)), input, Ok(Some(f)))
  {
    hide PlainOf, ParseFrame, UnpackAppData;
    TakesFirst(tag, left, padding);
    StagedNotEmpty(tag, left, padding);
    f := ParseFrame(PlainOf(tag, left, padding)).value;
  }

  /** Draining what is staged of a record returns its items one by one. */
  lemma {:induction false} DrainStaged(conn: Conn, log: seq<Entry>, tag: Tag, left: seq<Item>, padding: bytes, n: nat, input: bytes)
    requires |padding| < U16_SIZE && Small(left)
    ensures Drain(log, conn, Decoder(n, Staged(tag, left, padding)), input)
            == Prepend(left, Drain(log, conn, Decoder(n, []), input))
    decreases |left|
  {
    var after := Drain(log, conn, Decoder(n, []), input);
    if left == [] {
      PrependTwice([], [], after);
    } else {
      assert Small(left[1..]);
      hide *;
      var f := DecodeStaged(log, conn, tag, left, padding, n, input);
      DrainStep(log, conn, Decoder(n, Staged(tag, left, padding)), input, f);
      DrainStaged(conn, log, tag, left[1..], padding, n, input);
      PrependTwice([left[0]], left[1..], after);
      assert [left[0]] + left[1..] == left;
    }
  }

  lemma NoItems()
    ensures Items([]) == []
  {}

  lemma GoodParts(conn: Conn, sent: seq<Sent>, log: seq<Entry>, n: nat)
    requires LogHolds(conn, sent, log) && n < |sent| && Deliverable(sent[n])
    ensures sent[n].frames != [] && |sent[n].padding| < U16_SIZE
    ensures Small(sent[n].frames) && Small(sent[n].frames[1..])
    ensures Representable(AppDataRecord(sent[n].ct))
  {
    ShortRecordIsSmall(sent[n]);
  }

  /** A record of which only a part is there. */
  lemma Waits(record: TlsRecord, input: bytes, later: bytes, more: bytes)
    requires Representable(record) && input + later == RecordBytes(record) + more && |input| < |RecordBytes(record)|
    ensures ParseRecord(input) == Pending
  {
    assert input < RecordBytes(record) by {
      assert input == (input + later)[..|input|] == (RecordBytes(record) + more)[..|input|] == RecordBytes(record)[..|input|];
    }
    PrefixIsPending(record, input);
  }

  /** A record that is all there. */
  lemma Arrives(record: TlsRecord, input: bytes, later: bytes, more: bytes) returns (rest: bytes)
    requires Representable(record) && input + later == RecordBytes(record) + more && |input| >= |RecordBytes(record)|
    ensures ParseRecord(input) == Parsed(record, rest) && rest + later == more
  {
    hide RecordBytes, ParseRecord;
    var front := RecordBytes(record);
    rest := input[|front|..];
    assert input == front + rest by {
      assert input[..|front|] == (input + later)[..|front|] == (front + more)[..|front|] == front;
    }
    assert front + (rest + later) == front + more;
    assert rest + later == (front + (rest + later))[|front|..] == (front + more)[|front|..] == more;
    RecordRoundTrip(record, rest);
  }

  /** One complete record: all its items come out, then draining goes on behind it. */
  lemma DrainRecord(conn: Conn, sent: seq<Sent>, log: seq<Entry>, n: nat, input: bytes, rest: bytes)
    requires LogHolds(conn, sent, log) && n < |sent| && Deliverable(sent[n])
    requires ParseRecord(input) == Parsed(AppDataRecord(sent[n].ct), rest)
    ensures Drain(log, conn, Decoder(n, []), input) == Prepend(sent[n].frames, Drain(log, conn, Decoder(n + 1, []), rest))
  {
    GoodParts(conn, sent, log, n);
    var r := sent[n];
    AppDataUnpacks(r.ct, input, rest);
    hide *;
    OnlyNextRecordOpens(conn, sent, log, n, r.ct);
    RecordIsOpened(conn, sent, log, n, input);
    var d := DecodeInboundOf(log, conn.key, conn.iv, Decoder(n, []), input);
    DrainStep(log, conn, Decoder(n, []), input, d.answer.value.value);
    DrainStaged(conn, log, r.tag, r.frames[1..], r.padding, n + 1, rest);
    PrependTwice([r.frames[0]], r.frames[1..], Drain(log, conn, Decoder(n + 1, []), rest));
    assert [r.frames[0]] + r.frames[1..] == r.frames;
  }

  lemma AppDataUnpacks(ct: bytes, input: bytes, rest: bytes)
    requires ParseRecord(input) == Parsed(AppDataRecord(ct), rest)
    ensures UnpackAppData(input) == Payload(ct, rest)
  {}

  /** The first `k` records are short enough for their headers. */
  ghost predicate DeliverableTo(sent: seq<Sent>, k: nat)
  {
    k <= |sent| && forall i :: 0 <= i < k ==> Deliverable(sent[i])
  }

  /** Of a record that is to come there is not enough yet. */
  ghost predicate Short(sent: seq<Sent>, m: nat, k: nat, rest: bytes)
    requires k <= |sent|
  {
    m < k && |rest| < |RecordBytes(AppDataRecord(sent[m].ct))|
  }

  lemma WireFirst(sent: seq<Sent>, n: nat, k: nat, tail: bytes)
    requires n < k <= |sent|
    ensures Wire(sent[n..k]) + tail == RecordBytes(AppDataRecord(sent[n].ct)) + (Wire(sent[n + 1..k]) + tail)
  {
    hide RecordBytes;
    assert sent[n..k][0] == sent[n] && sent[n..k][1..] == sent[n + 1..k];
    Regroup(RecordBytes(AppDataRecord(sent[n].ct)), Wire(sent[n + 1..k]), tail);
  }

  lemma Regroup(a: bytes, b: bytes, c: bytes)
    ensures a + b + c == a + (b + c)
  {}

  /** With records of the sender's in front and any bytes at all behind them: those that are complete come
      out, and draining stops at one that is not, or goes on with what is behind. */
  lemma {:induction false} DrainHonest(
      conn: Conn, sent: seq<Sent>, log: seq<Entry>, k: nat, n: nat, input: bytes, later: bytes, tail: bytes)
      returns (m: nat, rest: bytes)
    requires LogHolds(conn, sent, log) && DeliverableTo(sent, k)
    requires n <= k && input + later == Wire(sent[n..k]) + tail
    ensures n <= m <= k && rest + later == Wire(sent[m..k]) + tail
    ensures Drain(log, conn, Decoder(n, []), input) == Prepend(Items(sent[n..m]), Drain(log, conn, Decoder(m, []), rest))
    ensures m < k ==> Short(sent, m, k, rest) && Drain(log, conn, Decoder(m, []), rest) == Drained(Decoder(m, []), rest, [], false)
    decreases k - n
  {
    hide Drain, DecodeInboundOf, Wire, UnpackAppData, ParseRecord, RecordBytes, Items, LogHolds, Deliverable, Representable;
    NoItems();
    PrependTwice([], [], Drain(log, conn, Decoder(n, []), input));
    if n == k {
      m, rest := n, input;
      assert sent[n..n] == [];
    } else {
      GoodParts(conn, sent, log, n);
      WireFirst(sent, n, k, tail);
      var record := AppDataRecord(sent[n].ct);
      if |input| < |RecordBytes(record)| {
        m, rest := n, input;
        assert sent[n..n] == [];
        Waits(record, input, later, Wire(sent[n + 1..k]) + tail);
        NothingUnpacks(input);
        DrainStops(log, conn, Decoder(n, []), input);
      } else {
        var behind := Arrives(record, input, later, Wire(sent[n + 1..k]) + tail);
        DrainRecord(conn, sent, log, n, input, behind);
        m, rest := DrainHonest(conn, sent, log, k, n + 1, behind, later, tail);
        ItemsFirst(sent, n, m);
        PrependTwice(sent[n].frames, Items(sent[n + 1..m]), Drain(log, conn, Decoder(m, []), rest));
      }
    }
  }

  lemma NothingUnpacks(input: bytes)
    requires ParseRecord(input) == Pending
    ensures UnpackAppData(input) == NothingYet
  {}

  lemma ItemsFirst(sent: seq<Sent>, n: nat, m: nat)
    requires n < m <= |sent|
    ensures Items(sent[n..m]) == sent[n].frames + Items(sent[n + 1..m])
  {
    assert sent[n..m] == [sent[n]] + sent[n + 1..m];
    ItemsAppend([sent[n]], sent[n + 1..m]);
    assert Items([sent[n]]) == Items([]) + sent[n].frames;
  }

  lemma EndOfWire(sent: seq<Sent>, n: nat, input: bytes)
    requires n <= |sent| && input + [] == Wire(sent[n..|sent|]) + []
    requires n < |sent| ==> Short(sent, n, |sent|, input)
    ensures n == |sent| && input == []
  {
    hide Wire;
    EmptyWire();
    if n < |sent| {
      WireFirst(sent, n, |sent|, []);
    } else {
      assert sent[n..|sent|] == [];
    }
  }

  lemma NothingLeftToDrain(log: seq<Entry>, conn: Conn, n: nat)
    ensures Drain(log, conn, Decoder(n, []), []) == Drained(Decoder(n, []), [], [], false)
  {
    hide Drain;
    DrainStops(log, conn, Decoder(n, []), []);
  }

  lemma {:induction false} FeedHonest(conn: Conn, sent: seq<Sent>, log: seq<Entry>, n: nat, input: bytes, chunks: seq<bytes>)
    requires LogHolds(conn, sent, log) && DeliverableTo(sent, |sent|)
    requires n <= |sent| && input + Concat(chunks) == Wire(sent[n..|sent|]) + []
    requires n < |sent| ==> Short(sent, n, |sent|, input)
    ensures FeedAll(log, conn, Decoder(n, []), input, chunks) == Drained(Decoder(|sent|, []), [], Items(sent[n..|sent|]), false)
    decreases |chunks|
  {
    hide Drain, FeedAll, Items, LogHolds, Deliverable, RecordBytes, Wire, Short;
    if chunks == [] {
      EndOfWire(sent, n, input);
      assert sent[n..|sent|] == [];
      NothingFed(log, conn, Decoder(n, []), input);
      NoItems();
    } else {
      var later := Concat(chunks[1..]);
      Regroup(input, chunks[0], later);
      var m, rest := DrainHonest(conn, sent, log, |sent|, n, input + chunks[0], later, []);
      if m == |sent| {
        assert sent[m..|sent|] == [];
        EmptyWire();
        NothingLeftToDrain(log, conn, m);
      }
      var d := FeedStep(log, conn, Decoder(n, []), input, chunks);
      FeedHonest(conn, sent, log, m, rest, chunks[1..]);
      ItemsAppend(sent[n..m], sent[m..|sent|]);
      assert sent[n..m] + sent[m..|sent|] == sent[n..|sent|];
    }
  }

  lemma EmptyWire()
    ensures Wire([]) == []
  {}

  // ------------------------------------------------------ records too long

  /** No bytes at all take the receiver past a record too long for its header: nothing opens at that
      counter but a ciphertext that no record can carry. */
  lemma StaysBefore(conn: Conn, sent: seq<Sent>, log: seq<Entry>, k: nat, rx: Decoder, input: bytes, returned: seq<Item>)
    requires LogHolds(conn, sent, log) && DecoderInv(sent, rx, returned)
    requires k < |sent| && |sent[k].ct| >= U16_SIZE && rx.counter <= k
    ensures DecodeInboundOf(log, conn.key, conn.iv, rx, input).rx.counter <= k
  {
    hide ParseFrame, UnpackAppData, OpenAt, Items, PlainOf;
    if rx.staging != [] {
      StagedFrameIsTaken(conn, sent, log, rx, input, returned);
    } else {
      match UnpackAppData(input)
      case NothingYet =>
      case Refused(_) =>
      case Payload(ct, _) =>
        if OpenAt(log, conn.key, conn.iv, rx.counter, ct).Some? {
          RecordIsOpened(conn, sent, log, rx.counter, input);
        }
    }
  }

  lemma {:induction false} DrainStaysBefore(conn: Conn, sent: seq<Sent>, log: seq<Entry>, k: nat, rx: Decoder, input: bytes, returned: seq<Item>)
    requires LogHolds(conn, sent, log) && DecoderInv(sent, rx, returned)
    requires k < |sent| && |sent[k].ct| >= U16_SIZE && rx.counter <= k
    ensures var d := Drain(log, conn, rx, input); d.rx.counter <= k && DecoderInv(sent, d.rx, returned + d.items)
    decreases |input|, |rx.staging|
  {
    hide DecodeInboundOf, DecoderInv, LogHolds;
    DecodeKeepsInv(conn, sent, log, rx, input, returned);
    StaysBefore(conn, sent, log, k, rx, input, returned);
    var d := DecodeInboundOf(log, conn.key, conn.iv, rx, input);
    assert returned + [] == returned;
    match d.answer
    case Ok(Some(f)) =>
      FrameShrinks(log, conn.key, conn.iv, rx, input);
      DrainStaysBefore(conn, sent, log, k, d.rx, d.input, returned + [ItemOf(f)]);
      var more := Drain(log, conn, d.rx, d.input).items;
      assert returned + [ItemOf(f)] + more == returned + ([ItemOf(f)] + more);
    case _ =>
  }

  lemma {:induction false} FeedStaysBefore(conn: Conn, sent: seq<Sent>, log: seq<Entry>, k: nat, rx: Decoder, input: bytes, chunks: seq<bytes>, returned: seq<Item>)
    requires LogHolds(conn, sent, log) && DecoderInv(sent, rx, returned)
    requires k < |sent| && |sent[k].ct| >= U16_SIZE && rx.counter <= k
    ensures returned + FeedAll(log, conn, rx, input, chunks).items <= Items(sent[..k])
    decreases |chunks|
  {
    hide Drain, FeedAll, DecoderInv, Items, GoodRecord;
    assert returned + [] == returned;
    if chunks == [] {
      NothingFed(log, conn, rx, input);
      PrefixBefore(sent, rx, returned, k);
    } else {
      var d := FeedStep(log, conn, rx, input, chunks);
      DrainStaysBefore(conn, sent, log, k, rx, input + chunks[0], returned);
      if d.failed {
        PrefixBefore(sent, d.rx, returned + d.items, k);
      } else {
        FeedStaysBefore(conn, sent, log, k, d.rx, d.input, chunks[1..], returned + d.items);
        var more := FeedAll(log, conn, d.rx, d.input, chunks[1..]).items;
        assert returned + d.items + more == returned + (d.items + more);
      }
    }
  }

  lemma PrefixBefore(sent: seq<Sent>, rx: Decoder, returned: seq<Item>, k: nat)
    requires GoodRecords(sent)
    requires DecoderInv(sent, rx, returned) && rx.counter <= k <= |sent|
    ensures returned <= Items(sent[..k])
  {
    assert sent[..k][..rx.counter] == sent[..rx.counter];
    ItemsPrefix(sent[..k], rx.counter);
  }

  lemma FewerItems(sent: seq<Sent>, k: nat)
    requires GoodRecords(sent) && k < |sent|
    ensures |Items(sent[..k])| < |Items(sent)|
  {
    assert GoodRecord(sent[k]);
    hide Items;
    ItemsUpTo(sent, k);
    ItemsPrefix(sent, k + 1);
  }

  /** A record too long for its header is lost for good: whatever bytes are fed, the sender's own or any
      others, the items that come out are some of those of the records before it. */
  lemma TooLongIsNeverPassed(conn: Conn, sent: seq<Sent>, log: seq<Entry>, k: nat, chunks: seq<bytes>)
    requires LogHolds(conn, sent, log) && k < |sent| && !Deliverable(sent[k])
    ensures FeedAll(log, conn, Decoder(0, []), [], chunks).items <= Items(sent[..k])
    ensures |Items(sent[..k])| < |Items(sent)|
  {
    assert GoodRecord(sent[k]);
    FewerItems(sent, k);
    assert Items([]) == [];
    FeedStaysBefore(conn, sent, log, k, Decoder(0, []), [], chunks, []);
  }

  /** Streaming round trip: however the sender's bytes are cut into reads, the reader's loop returns
      exactly the items sealed, in order, if and only if every record fits the length in its header. In
      the end nothing is staged then, no byte is left, and the receiving counter is the number of records. */
  lemma StreamRoundTrip(conn: Conn, sent: seq<Sent>, log: seq<Entry>, chunks: seq<bytes>)
    requires LogHolds(conn, sent, log) && Concat(chunks) == Wire(sent)
    ensures AllDeliverable(sent) ==>
              FeedAll(log, conn, Decoder(0, []), [], chunks) == Drained(Decoder(|sent|, []), [], Items(sent), false)
    ensures FeedAll(log, conn, Decoder(0, []), [], chunks).items == Items(sent) <==> AllDeliverable(sent)
  {
    hide FeedAll, Items, Deliverable;
    if AllDeliverable(sent) {
      assert sent[0..|sent|] == sent;
      assert [] + Concat(chunks) == Wire(sent[0..|sent|]) + [];
      FeedHonest(conn, sent, log, 0, [], chunks);
    } else {
      var k :| 0 <= k < |sent| && !Deliverable(sent[k]);
      TooLongIsNeverPassed(conn, sent, log, k, chunks);
    }
  }
}
